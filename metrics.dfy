/** Values the dashboard derives from the recent-history buffer: the synthetic
    activity score, the list of anomaly reasons, the activity status, the
    sample shown on the status cards and the cards' alert colours. */
module Metrics {
  import opened Telemetry

  function RealMin(a: real, b: real): real { if a <= b then a else b }
  function RealMax(a: real, b: real): real { if a >= b then a else b }
  function Abs(x: real): real { if x < 0.0 then -x else x }

  /** `Math.min(Math.max(v, lo), hi)`: the point of [lo, hi] nearest to v. */
  function Clamp(v: real, lo: real, hi: real): (r: real)
    ensures r <= hi
    ensures lo <= hi ==> lo <= r
    ensures lo <= v <= hi ==> r == v
    ensures v < lo && lo <= hi ==> r == lo
    ensures v > hi ==> r == hi
  {
    RealMin(RealMax(v, lo), hi)
  }

  /** The activity score of one sample. `random` stands for the value of
      `Math.random()`, which the dashboard scales to a noise term in [0, 10). */
  function Score(latest: Sample, random: real): (r: real)
    ensures 5.0 <= r <= 95.0
  {
    var tempPenalty := Clamp(Abs(latest.temp - 28.0) * 3.0, 0.0, 40.0);
    var humidityPenalty := Clamp(Abs(latest.humidity - 65.0) * 0.8, 0.0, 25.0);
    var noise := random * 10.0;
    Clamp(90.0 - tempPenalty - humidityPenalty + noise, 5.0, 95.0)
  }

  /** The activity score of the buffer: 50 while it is empty, otherwise the
      score of its newest sample; always inside [5, 95]. */
  function ActivityScore(window: seq<Sample>, random: real): (r: real)
    ensures 5.0 <= r <= 95.0
    ensures window == [] ==> r == 50.0
    ensures window != [] ==> r == Score(window[|window| - 1], random)
  {
    if window == [] then 50.0 else Score(window[|window| - 1], random)
  }

  /** With noise drawn from [0, 10) the penalties can take at most 65 points off
      90, so the score never falls below 25: the lower clamp bound 5 is never hit. */
  lemma ScoreFloor(latest: Sample, random: real)
    requires 0.0 <= random < 1.0
    ensures 25.0 <= Score(latest, random) <= 95.0
  {
  }

  /** At 28 °C and 65 % humidity nothing is taken off: the score is at least 90. */
  lemma IdealConditionsScore(latest: Sample, random: real)
    requires latest.temp == 28.0 && latest.humidity == 65.0
    requires 0.0 <= random < 1.0
    ensures 90.0 <= Score(latest, random) <= 95.0
  {
  }

  /** A score below 35 ("Low movement") needs a temperature penalty above 30
      points, that is a temperature more than 10 °C away from 28 °C. */
  lemma LowScoreNeedsTemperatureStress(latest: Sample, random: real)
    requires 0.0 <= random < 1.0
    requires Score(latest, random) < 35.0
    ensures latest.temp < 18.0 || latest.temp > 38.0
  {
  }

  /** The conditions the dashboard reports, in the order it checks them. */
  datatype Anomaly = HighTemperature | HighCo2 | HighNh3 | HighPm25 | LowMovement

  const Priority: seq<Anomaly> := [HighTemperature, HighCo2, HighNh3, HighPm25, LowMovement]

  function Rank(a: Anomaly): nat
  {
    match a
    case HighTemperature => 0
    case HighCo2 => 1
    case HighNh3 => 2
    case HighPm25 => 3
    case LowMovement => 4
  }

  function Label(a: Anomaly): string
  {
    match a
    case HighTemperature => "High temperature"
    case HighCo2 => "High CO\U{2082}"
    case HighNh3 => "High NH\U{2083}"
    case HighPm25 => "High PM2.5"
    case LowMovement => "Low movement"
  }

  /** Whether an anomaly holds for the newest sample and the activity score. */
  predicate Triggered(a: Anomaly, latest: Sample, score: real)
  {
    match a
    case HighTemperature => latest.temp > 32.0
    case HighCo2 => latest.co2 > 1200.0
    case HighNh3 => latest.nh3 > 5.0
    case HighPm25 => latest.pm25 > 35.0
    case LowMovement => score < 35.0
  }

  /** The reasons in the order the dashboard pushes them. */
  function Reasons(latest: Sample, score: real): (r: seq<Anomaly>)
    ensures |r| <= |Priority|
    ensures forall a :: a in r ==> Triggered(a, latest, score)
  {
    (if latest.temp > 32.0 then [HighTemperature] else []) +
    (if latest.co2 > 1200.0 then [HighCo2] else []) +
    (if latest.nh3 > 5.0 then [HighNh3] else []) +
    (if latest.pm25 > 35.0 then [HighPm25] else []) +
    (if score < 35.0 then [LowMovement] else [])
  }

  /** Reference definition: the anomalies of `candidates` that hold, in order. */
  function Select(candidates: seq<Anomaly>, latest: Sample, score: real): (r: seq<Anomaly>)
    ensures |r| <= |candidates|
  {
    if candidates == [] then []
    else if Triggered(candidates[0], latest, score) then [candidates[0]] + Select(candidates[1..], latest, score)
    else Select(candidates[1..], latest, score)
  }

  lemma {:induction false} SelectMembership(candidates: seq<Anomaly>, latest: Sample, score: real, a: Anomaly)
    ensures a in Select(candidates, latest, score) <==> a in candidates && Triggered(a, latest, score)
  {
    if candidates != [] {
      SelectMembership(candidates[1..], latest, score, a);
      assert candidates == [candidates[0]] + candidates[1..];
    }
  }

  predicate StrictlyRanked(s: seq<Anomaly>)
  {
    forall i, j :: 0 <= i < j < |s| ==> Rank(s[i]) < Rank(s[j])
  }

  lemma {:induction false} SelectKeepsRanking(candidates: seq<Anomaly>, latest: Sample, score: real)
    requires StrictlyRanked(candidates)
    ensures StrictlyRanked(Select(candidates, latest, score))
    ensures forall a :: a in Select(candidates, latest, score) ==> a in candidates
  {
    if candidates != [] {
      var rest := Select(candidates[1..], latest, score);
      SelectKeepsRanking(candidates[1..], latest, score);
      forall a | a in rest ensures Rank(candidates[0]) < Rank(a) {
        var k :| 0 <= k < |candidates[1..]| && candidates[1..][k] == a;
        assert candidates[k + 1] == a;
      }
    }
  }

  /** The pushed list is exactly the priority list filtered by the conditions. */
  lemma ReasonsFollowPriority(latest: Sample, score: real)
    ensures Reasons(latest, score) == Select(Priority, latest, score)
  {
    var p := Priority;
    assert p[1..][1..][1..][1..][1..] == [];
    calc {
      Select(p, latest, score);
      (if Triggered(HighTemperature, latest, score) then [HighTemperature] else []) + Select(p[1..], latest, score);
      (if latest.temp > 32.0 then [HighTemperature] else []) +
      (if latest.co2 > 1200.0 then [HighCo2] else []) + Select(p[1..][1..], latest, score);
      (if latest.temp > 32.0 then [HighTemperature] else []) +
      (if latest.co2 > 1200.0 then [HighCo2] else []) +
      (if latest.nh3 > 5.0 then [HighNh3] else []) + Select(p[1..][1..][1..], latest, score);
      (if latest.temp > 32.0 then [HighTemperature] else []) +
      (if latest.co2 > 1200.0 then [HighCo2] else []) +
      (if latest.nh3 > 5.0 then [HighNh3] else []) +
      (if latest.pm25 > 35.0 then [HighPm25] else []) + Select(p[1..][1..][1..][1..], latest, score);
      Reasons(latest, score);
    }
  }

  /** Each reason is listed exactly when its condition holds, and the list keeps
      the fixed order temperature, CO2, NH3, PM2.5, movement (so no reason twice). */
  lemma ReasonsExact(latest: Sample, score: real)
    ensures forall a :: a in Reasons(latest, score) <==> Triggered(a, latest, score)
    ensures StrictlyRanked(Reasons(latest, score))
  {
  }

  /** The total length of a list of strings. */
  function TotalLength(parts: seq<string>): nat
  {
    if parts == [] then 0 else |parts[0]| + TotalLength(parts[1..])
  }

  /** `Array.prototype.join`. */
  function Join(parts: seq<string>, sep: string): (r: string)
    ensures parts == [] ==> r == ""
    ensures parts != [] ==> parts[0] <= r
    ensures parts != [] ==> |r| == TotalLength(parts) + (|parts| - 1) * |sep|
  {
    if parts == [] then ""
    else if |parts| == 1 then parts[0]
    else parts[0] + sep + Join(parts[1..], sep)
  }

  /** Joining one more part appends the separator and that part: with `Join([p]) == p`
      this fixes every part's place, in order, with `sep` between neighbours. */
  lemma {:induction false} JoinSnoc(parts: seq<string>, p: string, sep: string)
    requires parts != []
    ensures Join(parts + [p], sep) == Join(parts, sep) + sep + p
  {
    var all := parts + [p];
    if |parts| > 1 {
      assert all[1..] == parts[1..] + [p];
      JoinSnoc(parts[1..], p, sep);
    }
  }

  function Labels(reasons: seq<Anomaly>): (r: seq<string>)
    ensures |r| == |reasons|
    ensures forall i :: 0 <= i < |reasons| ==> r[i] == Label(reasons[i])
  {
    if reasons == [] then [] else [Label(reasons[0])] + Labels(reasons[1..])
  }

  /** The reason line: "Insufficient data" for an empty buffer, the comma-joined
      labels of the reasons, or "Normal" when none holds. */
  function AbnormalReason(window: seq<Sample>, random: real): (r: string)
    ensures |r| > 0
    ensures window != [] && Reasons(window[|window| - 1], ActivityScore(window, random)) != [] ==>
      Label(Reasons(window[|window| - 1], ActivityScore(window, random))[0]) <= r
    ensures window != [] && Reasons(window[|window| - 1], ActivityScore(window, random)) != [] ==>
      r == Join(Labels(Reasons(window[|window| - 1], ActivityScore(window, random))), ", ")
  {
    if window == [] then "Insufficient data"
    else
      var reasons := Reasons(window[|window| - 1], ActivityScore(window, random));
      if reasons == [] then "Normal" else Join(Labels(reasons), ", ")
  }

  /** The two sentinels are reported exactly in their situations: "Insufficient
      data" iff the buffer is empty, "Normal" iff a sample exists and no reason holds. */
  lemma AbnormalReasonSentinels(window: seq<Sample>, random: real)
    ensures AbnormalReason(window, random) == "Insufficient data" <==> window == []
    ensures AbnormalReason(window, random) == "Normal" <==>
      window != [] && Reasons(window[|window| - 1], ActivityScore(window, random)) == []
  {
  }

  /** A 35 °C sample can never show "Low movement" (see
      LowScoreNeedsTemperatureStress), so a sample with all five reasons needs a
      hotter house; 40 °C at 100 % humidity with low noise gives all five. */
  lemma AllFiveReasonsReachable()
    ensures var s := Sample("08:00", 40.0, 100.0, 1300.0, 6.0, 40.0);
      Reasons(s, Score(s, 0.0)) == Priority
  {
  }

  /** The three activity states shown beside the score. */
  datatype Status = AbnormalLow | Moderate | Normal

  function StatusLabel(st: Status): string
  {
    match st
    case AbnormalLow => "Abnormal (Low)"
    case Moderate => "Moderate"
    case Normal => "Normal"
  }

  function StatusRank(st: Status): nat
  {
    match st
    case AbnormalLow => 0
    case Moderate => 1
    case Normal => 2
  }

  function ActivityStatus(score: real): (st: Status)
    ensures st == AbnormalLow <==> score < 35.0
    ensures st == Moderate <==> 35.0 <= score < 60.0
    ensures st == Normal <==> score >= 60.0
  {
    if score < 35.0 then AbnormalLow else if score < 60.0 then Moderate else Normal
  }

  /** A higher score never gives a worse status. */
  lemma StatusMonotone(a: real, b: real)
    requires a <= b
    ensures StatusRank(ActivityStatus(a)) <= StatusRank(ActivityStatus(b))
  {
  }

  /** The status shows "Abnormal (Low)" exactly when the reason list says "Low movement". */
  lemma StatusAgreesWithReasons(window: seq<Sample>, random: real)
    requires window != []
    ensures var score := ActivityScore(window, random);
      ActivityStatus(score) == AbnormalLow <==> LowMovement in Reasons(window[|window| - 1], score)
  {
  }

  /** The sample shown on the cards when none has been replayed yet and no archive is loaded. */
  const Placeholder: Sample := Sample("-", 0.0, 0.0, 0.0, 0.0, 0.0)

  /** The sample the cards show: the newest buffered sample, else the first of
      the archive, else the all-zero placeholder. */
  function LatestSafe(data: seq<Sample>, allData: seq<Sample>): (r: Sample)
    ensures data != [] ==> r == data[|data| - 1]
    ensures data == [] && allData != [] ==> r == allData[0]
    ensures data == [] && allData == [] ==> r == Placeholder
  {
    if data != [] then data[|data| - 1]
    else if allData != [] then allData[0]
    else Placeholder
  }

  /** During replay the cards show the sample of the last tick, and before the
      first tick the first sample of the archive. */
  lemma LatestIsLastRead(archive: seq<Sample>, n: nat)
    requires archive != []
    ensures n > 0 ==> LatestSafe(WindowAfter(archive, n), archive) == SampleAt(archive, n - 1)
    ensures n == 0 ==> LatestSafe(WindowAfter(archive, n), archive) == SampleAt(archive, 0)
  {
  }

  datatype Color = Green | Red | Orange | Yellow

  datatype Card = Card(name: string, value: real, unit: string, limit: real, color: Color)

  /** The five status cards. Humidity carries a limit but is always green. */
  function Cards(s: Sample): (r: seq<Card>)
    ensures |r| == 5
    ensures r[0].name == "Temperature" && r[0].value == s.temp && r[0].unit == "°C" && r[0].limit == 32.0
    ensures r[1].name == "Humidity" && r[1].value == s.humidity && r[1].unit == "%" && r[1].limit == 85.0
    ensures r[2].name == "CO\U{2082}" && r[2].value == s.co2 && r[2].unit == "ppm" && r[2].limit == 1200.0
    ensures r[3].name == "NH\U{2083}" && r[3].value == s.nh3 && r[3].unit == "ppm" && r[3].limit == 5.0
    ensures r[4].name == "PM2.5" && r[4].value == s.pm25 && r[4].unit == "µg/m³" && r[4].limit == 35.0
  {
    [
      Card("Temperature", s.temp, "°C", 32.0, if s.temp > 32.0 then Red else Green),
      Card("Humidity", s.humidity, "%", 85.0, Green),
      Card("CO\U{2082}", s.co2, "ppm", 1200.0, if s.co2 > 1200.0 then Red else Green),
      Card("NH\U{2083}", s.nh3, "ppm", 5.0, if s.nh3 > 5.0 then Orange else Green),
      Card("PM2.5", s.pm25, "µg/m³", 35.0, if s.pm25 > 35.0 then Yellow else Green)
    ]
  }

  /** The alert colour of each card: every card but humidity leaves green exactly
      when its value is above its limit, and then takes its own tier colour. */
  lemma CardTiers(s: Sample)
    ensures var c := Cards(s);
      c[1].color == Green &&
      (forall i :: 0 <= i < 5 && i != 1 ==> (c[i].color != Green <==> c[i].value > c[i].limit)) &&
      (c[0].color in {Green, Red}) && (c[2].color in {Green, Red}) &&
      (c[3].color in {Green, Orange}) && (c[4].color in {Green, Yellow})
  {
  }

  /** The cards and the reason list use the same thresholds: a card is coloured
      exactly when its anomaly is among the reasons, whatever the score. */
  lemma CardsAgreeWithReasons(s: Sample, score: real)
    ensures var c := Cards(s); var rs := Reasons(s, score);
      (c[0].color != Green <==> HighTemperature in rs) &&
      (c[2].color != Green <==> HighCo2 in rs) &&
      (c[3].color != Green <==> HighNh3 in rs) &&
      (c[4].color != Green <==> HighPm25 in rs)
  {
  }

  /** The two alert paths read different samples before the first tick: the
      cards fall back to the first archive sample while the reason line reports
      "Insufficient data", so a hot first sample shows a red temperature card
      beside "Insufficient data". */
  lemma CardsAndReasonsDisagreeBeforeFirstTick(s: Sample, random: real)
    requires s.temp > 32.0
    ensures Cards(LatestSafe([], [s]))[0].color == Red
    ensures AbnormalReason([], random) == "Insufficient data"
  {
  }

  /** A one-sample archive replayed for one tick: the buffer holds that sample,
      the temperature card is red and the four environmental reasons are listed. */
  method SingleSampleScenario(random: real) returns (cards: seq<Card>, reasons: seq<Anomaly>)
    requires 0.0 <= random < 1.0
    ensures |cards| == 5 && cards[0].color == Red && cards[1].color == Green
    ensures reasons == [HighTemperature, HighCo2, HighNh3, HighPm25]
  {
    var s := Sample("08:00", 33.0, 70.0, 1300.0, 6.0, 40.0);
    var w := new ReplayWindow([s]);
    w.Tick();
    assert w.data == [s];
    var latest := LatestSafe(w.data, w.allData);
    assert Cards(latest)[0].color == Red;
    ScoreFloor(s, random);
    assert Score(s, random) >= 71.0 by {
      assert Clamp(Abs(s.temp - 28.0) * 3.0, 0.0, 40.0) == 15.0;
      assert Clamp(Abs(s.humidity - 65.0) * 0.8, 0.0, 25.0) == 4.0;
    }
    cards := Cards(latest);
    reasons := Reasons(latest, ActivityScore(w.data, random));
    assert reasons == [HighTemperature, HighCo2, HighNh3, HighPm25];
  }
}
