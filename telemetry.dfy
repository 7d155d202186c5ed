/** The replay window of the broiler-house dashboard: a cursor walks cyclically
    over the loaded archive of sensor samples, and every tick pushes the sample
    under the cursor onto a recent-history buffer that keeps at most six. */
module Telemetry {

  /** One environmental reading (the `DataPoint` record of the dashboard). */
  datatype Sample = Sample(time: string, temp: real, humidity: real, co2: real, nh3: real, pm25: real)

  /** How many samples the recent-history buffer keeps. */
  const Capacity: nat := 6

  function Min(a: int, b: int): int { if a < b then a else b }

  /** The buffer after one tick that reads sample `x`: `x` is appended and, once
      that makes the buffer longer than `Capacity`, the oldest element is shifted out. */
  function Slide(prev: seq<Sample>, x: Sample): (r: seq<Sample>)
    ensures |r| > 0 && r[|r| - 1] == x
    ensures |prev| < Capacity ==> r == prev + [x]
    ensures |prev| >= Capacity ==> r == prev[1..] + [x]
    ensures |prev| <= Capacity ==> |r| <= Capacity
  {
    var grown := prev + [x];
    if |grown| > Capacity then grown[1..] else grown
  }

  /** The cursor after one tick: `(index + 1) % length` for an index inside the archive. */
  function Advance(index: nat, length: nat): (r: nat)
    requires index < length
    ensures r < length
    ensures r == (index + 1) % length
  {
    if index + 1 == length then
      ModUnique(length, 1, 0, length);
      0
    else
      ModUnique(index + 1, 0, index + 1, length);
      index + 1
  }

  /** The cursor after `k` ticks from 0. */
  function Cursor(length: nat, k: nat): (r: nat)
    requires length > 0
    ensures r < length
  {
    if k == 0 then 0 else Advance(Cursor(length, k - 1), length)
  }

  /** The sample the `k`-th tick (counting from 0) reads from a non-empty archive. */
  function SampleAt(archive: seq<Sample>, k: nat): (r: Sample)
    requires archive != []
    ensures r in archive
  {
    archive[Cursor(|archive|, k)]
  }

  /** The buffer after `n` ticks that started from an empty buffer and cursor 0. */
  function WindowAfter(archive: seq<Sample>, n: nat): (r: seq<Sample>)
    requires archive != []
    ensures |r| <= Capacity
    ensures n > 0 ==> |r| > 0
  {
    if n == 0 then [] else Slide(WindowAfter(archive, n - 1), SampleAt(archive, n - 1))
  }

  lemma MulAtLeast(d: int, m: int)
    requires d >= 1 && m > 0
    ensures d * m >= m
  {
  }

  /** Division with remainder is unique. */
  lemma ModUnique(x: int, q: int, r: int, m: int)
    requires m > 0 && 0 <= r < m && x == q * m + r
    ensures x % m == r
  {
    var q', r' := x / m, x % m;
    assert (q - q') * m == r' - r;
    if q > q' {
      MulAtLeast(q - q', m);
    } else if q < q' {
      MulAtLeast(q' - q, m);
    }
  }

  lemma ModSucc(k: nat, m: nat)
    requires m > 0
    ensures (k % m + 1) % m == (k + 1) % m
  {
    var q, r := k / m, k % m;
    if r + 1 == m {
      ModUnique(k + 1, q + 1, 0, m);
      ModUnique(r + 1, 1, 0, m);
    } else {
      ModUnique(k + 1, q, r + 1, m);
      ModUnique(r + 1, 0, r + 1, m);
    }
  }

  lemma ModShift(k: nat, m: nat)
    requires m > 0
    ensures (k + m) % m == k % m
  {
    ModUnique(k + m, k / m + 1, k % m, m);
  }

  /** The cursor walks the archive modulo its length. */
  lemma {:induction false} CursorIsMod(length: nat, k: nat)
    requires length > 0
    ensures Cursor(length, k) == k % length
  {
    if k == 0 {
      ModUnique(0, 0, 0, length);
    } else {
      CursorIsMod(length, k - 1);
      ModSucc(k - 1, length);
    }
  }

  /** Tick k and tick k + |archive| read the same sample: replay is cyclic. */
  lemma {:induction false} SampleAtCyclic(archive: seq<Sample>, k: nat)
    requires archive != []
    ensures SampleAt(archive, k + |archive|) == SampleAt(archive, k)
  {
    CursorIsMod(|archive|, k);
    CursorIsMod(|archive|, k + |archive|);
    ModShift(k, |archive|);
  }

  /** Bounded window: after `n` ticks from an empty buffer it holds exactly min(n, 6) samples. */
  lemma {:induction false} WindowLength(archive: seq<Sample>, n: nat)
    requires archive != []
    ensures |WindowAfter(archive, n)| == Min(n, Capacity)
  {
    if n > 0 {
      WindowLength(archive, n - 1);
    }
  }

  /** The window holds the most recent samples read, oldest first: its j-th element
      is the sample read by tick n - |window| + j. */
  lemma {:induction false} WindowContents(archive: seq<Sample>, n: nat, j: nat)
    requires archive != []
    requires j < |WindowAfter(archive, n)|
    ensures n >= |WindowAfter(archive, n)|
    ensures WindowAfter(archive, n)[j] == SampleAt(archive, n - |WindowAfter(archive, n)| + j)
  {
    WindowLength(archive, n);
    var prev := WindowAfter(archive, n - 1);
    var x := SampleAt(archive, n - 1);
    var w := Slide(prev, x);
    assert WindowAfter(archive, n) == w;
    WindowLength(archive, n - 1);
    if j == |w| - 1 {
    } else if |prev| < Capacity {
      assert w == prev + [x];
      assert w[j] == prev[j];
      WindowContents(archive, n - 1, j);
    } else {
      assert w == prev[1..] + [x];
      assert w[j] == prev[j + 1];
      WindowContents(archive, n - 1, j + 1);
    }
  }

  lemma WindowPeriodicAt(archive: seq<Sample>, n: nat, j: nat)
    requires archive != []
    requires n >= Capacity && j < Capacity
    requires |WindowAfter(archive, n + |archive|)| == Capacity && |WindowAfter(archive, n)| == Capacity
    ensures WindowAfter(archive, n + |archive|)[j] == WindowAfter(archive, n)[j]
  {
    var k := n - Capacity + j;
    WindowContents(archive, n + |archive|, j);
    assert WindowAfter(archive, n + |archive|)[j] == SampleAt(archive, k + |archive|);
    WindowContents(archive, n, j);
    assert WindowAfter(archive, n)[j] == SampleAt(archive, k);
    SampleAtCyclic(archive, k);
  }

  /** Once the buffer is full, replaying a whole archive length further gives the same window. */
  lemma {:induction false} WindowPeriodic(archive: seq<Sample>, n: nat)
    requires archive != []
    requires n >= Capacity
    ensures WindowAfter(archive, n + |archive|) == WindowAfter(archive, n)
  {
    WindowLength(archive, n + |archive|);
    WindowLength(archive, n);
    forall j | 0 <= j < Capacity
      ensures WindowAfter(archive, n + |archive|)[j] == WindowAfter(archive, n)[j]
    {
      WindowPeriodicAt(archive, n, j);
    }
  }

  /** The dashboard's live state: the archive it replays, the recent-history
      buffer `data`, the cursor `index` and the time label of the last sample read. */
  class ReplayWindow {
    const allData: seq<Sample>
    var data: seq<Sample>
    var index: nat
    var lastUpdate: string
    /** How many ticks have happened since the archive was loaded. */
    ghost var ticks: nat

    ghost predicate Valid()
      reads this
    {
      |data| <= Capacity &&
      (allData == [] ==> index == 0 && data == [] && ticks == 0 && lastUpdate == "") &&
      (allData != [] ==>
        index == Cursor(|allData|, ticks) &&
        data == WindowAfter(allData, ticks) &&
        lastUpdate == (if ticks == 0 then "" else SampleAt(allData, ticks - 1).time))
    }

    /** The state right after the archive has been loaded: empty buffer, cursor at 0. */
    constructor (archive: seq<Sample>)
      ensures Valid()
      ensures allData == archive && data == [] && index == 0 && lastUpdate == "" && ticks == 0
    {
      allData := archive;
      data := [];
      index := 0;
      lastUpdate := "";
      ticks := 0;
    }

    /** One firing of the two-second timer. With an empty archive no timer is
        scheduled, so nothing changes. */
    method Tick()
      requires Valid()
      modifies this
      ensures Valid()
      ensures allData == [] ==> data == old(data) && index == old(index) && lastUpdate == old(lastUpdate)
      ensures allData != [] ==>
        var next := old(allData[index]);
        data == Slide(old(data), next) &&
        lastUpdate == next.time &&
        index == (old(index) + 1) % |allData| &&
        index < |allData| &&
        ticks == old(ticks) + 1
    {
      if |allData| == 0 {
        return;
      }
      var next := allData[index];
      lastUpdate := next.time;
      index := Advance(index, |allData|);
      var newData := data + [next];
      if |newData| > Capacity {
        newData := newData[1..];
      }
      data := newData;
      ticks := ticks + 1;
    }
  }
}
