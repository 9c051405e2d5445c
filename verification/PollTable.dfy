/** The register-read table of the VPU capture tool: poll_note counts reads per
    address, and the exit report sorts the table in place and prints its top. */
module PollTable {

  const MAX_POLL_ADDRS: nat := 4096
  const WRAP: nat := 0x1_0000_0000   // poll_count holds unsigned 32-bit integers
  const SHOWN: nat := 8

  /** One row: an address and the stored count. */
  type Row = (nat, nat)

  function Occurrences(log: seq<nat>, paddr: nat): nat {
    multiset(log)[paddr]
  }

  /** Distinct addresses in the order of their first read, at most 4096. */
  function Known(log: seq<nat>): seq<nat> {
    if log == [] then []
    else
      var before := Known(log[..|log| - 1]);
      var last := log[|log| - 1];
      if last in before || |before| >= MAX_POLL_ADDRS then before else before + [last]
  }

  predicate Distinct(s: seq<nat>) {
    forall i, j :: 0 <= i < j < |s| ==> s[i] != s[j]
  }

  function SetOf(s: seq<nat>): set<nat> {
    set a | a in s
  }

  lemma {:induction false} SetSize(s: seq<nat>)
    requires Distinct(s)
    ensures |SetOf(s)| == |s|
  {
    if s != [] {
      var front, last := s[..|s| - 1], s[|s| - 1];
      SetSize(front);
      assert s == front + [last];
      assert SetOf(s) == SetOf(front) + {last};
    }
  }

  lemma {:induction false} SubsetSize(small: set<nat>, big: set<nat>)
    requires small <= big
    ensures |small| <= |big|
    ensures |small| == |big| ==> small == big
  {
    if small != {} {
      var a :| a in small;
      SubsetSize(small - {a}, big - {a});
    }
  }

  lemma {:induction false} KnownWhenRoom(log: seq<nat>)
    ensures Distinct(Known(log)) && |Known(log)| <= MAX_POLL_ADDRS
    ensures SetOf(Known(log)) <= SetOf(log)
    ensures |Known(log)| < MAX_POLL_ADDRS ==> SetOf(log) <= SetOf(Known(log))
  {
    if log != [] {
      var front, last := log[..|log| - 1], log[|log| - 1];
      KnownWhenRoom(front);
      assert log == front + [last];
      assert forall a :: a in log <==> a in SetOf(front) || a == last;
      assert forall a :: a in Known(front) <==> a in SetOf(Known(front));
    }
  }

  /** Nothing is counted twice, and every address that was read is counted if
      and only if there are at most 4096 of them. */
  lemma KnownAddresses(log: seq<nat>)
    ensures Distinct(Known(log)) && |Known(log)| <= MAX_POLL_ADDRS
    ensures forall a :: a in Known(log) ==> a in log
    ensures (forall a :: a in log ==> a in Known(log)) <==> |SetOf(log)| <= MAX_POLL_ADDRS
    ensures |SetOf(log)| <= MAX_POLL_ADDRS ==> |Known(log)| == |SetOf(log)|
  {
    hide Known;
    KnownWhenRoom(log);
    var known := Known(log);
    SetSize(known);
    SubsetSize(SetOf(known), SetOf(log));
    assert forall a :: a in known <==> a in SetOf(known);
    assert forall a :: a in log <==> a in SetOf(log);
    if (forall a :: a in log ==> a in known) || |known| < MAX_POLL_ADDRS {
      assert SetOf(log) == SetOf(known);
    }
  }

  // ---- rows ----

  predicate HasRow(rows: seq<Row>, address: nat) {
    exists i :: 0 <= i < |rows| && rows[i].0 == address
  }

  /** The rows say exactly what was read: one row for each known address, with
      the number of its reads modulo 2^32. */
  ghost predicate Accurate(rows: seq<Row>, log: seq<nat>) {
    && |rows| == |Known(log)|
    && (forall i, j :: 0 <= i < j < |rows| ==> rows[i].0 != rows[j].0)
    && (forall i :: 0 <= i < |rows| ==> rows[i].0 in Known(log))
    && (forall a :: a in Known(log) ==> HasRow(rows, a))
    && (forall i :: 0 <= i < |rows| ==> rows[i].1 == Occurrences(log, rows[i].0) % WRAP)
  }

  lemma KnownNext(log: seq<nat>, address: nat)
    ensures Known(log + [address])
         == if address in Known(log) || |Known(log)| >= MAX_POLL_ADDRS then Known(log) else Known(log) + [address]
  {
    assert (log + [address])[..|log|] == log;
  }

  lemma OccurrencesNext(log: seq<nat>, address: nat, other: nat)
    ensures Occurrences(log + [address], other) == Occurrences(log, other) + if other == address then 1 else 0
  {
  }

  lemma CountNext(c: nat)
    ensures (c % WRAP + 1) % WRAP == (c + 1) % WRAP
  {
  }

  lemma CountedAgain(rows: seq<Row>, log: seq<nat>, k: nat)
    requires Accurate(rows, log) && k < |rows|
    ensures Accurate(rows[k := (rows[k].0, (rows[k].1 + 1) % WRAP)], log + [rows[k].0])
  {
    hide Known, Occurrences;
    var address := rows[k].0;
    var rows' := rows[k := (address, (rows[k].1 + 1) % WRAP)];
    KnownNext(log, address);
    forall a | a in Known(log)
      ensures HasRow(rows', a)
    {
      var i :| 0 <= i < |rows| && rows[i].0 == a;
      assert rows'[i].0 == a;
    }
    forall i | 0 <= i < |rows|
      ensures rows'[i].1 == Occurrences(log + [address], rows'[i].0) % WRAP
    {
      OccurrencesNext(log, address, rows[i].0);
      CountNext(Occurrences(log, address));
    }
  }

  lemma FirstCount(rows: seq<Row>, log: seq<nat>, address: nat)
    requires Accurate(rows, log) && !HasRow(rows, address)
    ensures Accurate(if |rows| < MAX_POLL_ADDRS then rows + [(address, 1)] else rows, log + [address])
  {
    if |rows| < MAX_POLL_ADDRS {
      RowJoins(rows, log, address);
    } else {
      FullStays(rows, log, address);
    }
  }

  lemma FullStays(rows: seq<Row>, log: seq<nat>, address: nat)
    requires Accurate(rows, log) && !HasRow(rows, address) && |rows| >= MAX_POLL_ADDRS
    ensures Accurate(rows, log + [address])
  {
    hide Known, Occurrences, HasRow;
    KnownNext(log, address);
    FirstCountRight(rows, log, address);
  }

  lemma RowJoins(rows: seq<Row>, log: seq<nat>, address: nat)
    requires Accurate(rows, log) && !HasRow(rows, address) && |rows| < MAX_POLL_ADDRS
    ensures Accurate(rows + [(address, 1)], log + [address])
  {
    hide Known, Occurrences, HasRow;
    KnownNext(log, address);
    NotARow(rows, address);
    FirstCountRight(rows, log, address);
    forall a | a in Known(log) || a == address
      ensures HasRow(rows + [(address, 1)], a)
    {
      RowAdded(rows, (address, 1), a);
    }
  }

  lemma NotARow(rows: seq<Row>, address: nat)
    requires !HasRow(rows, address)
    ensures forall i :: 0 <= i < |rows| ==> rows[i].0 != address
  {
  }

  lemma RowAdded(rows: seq<Row>, row: Row, address: nat)
    requires HasRow(rows, address) || row.0 == address
    ensures HasRow(rows + [row], address)
  {
    assert (rows + [row])[|rows|] == row;
    if HasRow(rows, address) {
      var i :| 0 <= i < |rows| && rows[i].0 == address;
      assert (rows + [row])[i] == rows[i];
    }
  }

  lemma FirstCountRight(rows: seq<Row>, log: seq<nat>, address: nat)
    requires Accurate(rows, log) && !HasRow(rows, address)
    ensures |rows| < MAX_POLL_ADDRS ==> 1 == Occurrences(log + [address], address) % WRAP
    ensures forall i :: 0 <= i < |rows| ==> rows[i].1 == Occurrences(log + [address], rows[i].0) % WRAP
  {
    hide Known, Occurrences;
    forall i | 0 <= i < |rows|
      ensures rows[i].1 == Occurrences(log + [address], rows[i].0) % WRAP
    {
      OccurrencesNext(log, address, rows[i].0);
    }
    if |rows| < MAX_POLL_ADDRS {
      NeverRead(log, address);
      OccurrencesNext(log, address, address);
    }
  }

  lemma NeverRead(log: seq<nat>, address: nat)
    requires address !in Known(log) && |Known(log)| < MAX_POLL_ADDRS
    ensures Occurrences(log, address) == 0
  {
    KnownWhenRoom(log);
    assert address !in SetOf(Known(log));
  }

  // ---- sorting ----

  predicate Descending(rows: seq<Row>) {
    forall i, j :: 0 <= i < j < |rows| ==> rows[i].1 >= rows[j].1
  }

  function Swapped(rows: seq<Row>, i: nat, j: nat): seq<Row>
    requires i < |rows| && j < |rows|
  {
    rows[i := rows[j]][j := rows[i]]
  }

  lemma SwapKeepsRows(rows: seq<Row>, i: nat, j: nat)
    requires i < j < |rows|
    ensures multiset(Swapped(rows, i, j)) == multiset(rows)
  {
  }

  lemma SwapKeepsAccurate(rows: seq<Row>, i: nat, j: nat, log: seq<nat>)
    requires i < j < |rows|
    requires Accurate(rows, log)
    ensures Accurate(Swapped(rows, i, j), log)
  {
    hide Known, Occurrences;
    var rows' := Swapped(rows, i, j);
    forall a | a in Known(log)
      ensures HasRow(rows', a)
    {
      var k :| 0 <= k < |rows| && rows[k].0 == a;
      assert rows'[if k == i then j else if k == j then i else k].0 == a;
    }
  }

  /** Progress of the exchange sort: rows before i are final, and row i is the
      largest of rows i to j - 1. */
  predicate SortedUpTo(rows: seq<Row>, i: nat, j: nat) {
    && (forall p, q :: 0 <= p < i && p < q < |rows| ==> rows[p].1 >= rows[q].1)
    && (forall q :: i < q < j && q < |rows| ==> rows[i].1 >= rows[q].1)
  }

  lemma SwapSorts(rows: seq<Row>, i: nat, j: nat)
    requires i < j < |rows| && SortedUpTo(rows, i, j) && rows[j].1 > rows[i].1
    ensures SortedUpTo(Swapped(rows, i, j), i, j + 1)
  {
  }

  lemma RowStays(rows: seq<Row>, i: nat, j: nat)
    requires i < j < |rows| && SortedUpTo(rows, i, j) && rows[j].1 <= rows[i].1
    ensures SortedUpTo(rows, i, j + 1)
  {
  }

  lemma RowDone(rows: seq<Row>, i: nat)
    requires i < |rows| && SortedUpTo(rows, i, |rows|)
    ensures SortedUpTo(rows, i + 1, i + 2)
  {
  }

  lemma AllDone(rows: seq<Row>)
    ensures SortedUpTo(rows, 0, 1)
    ensures SortedUpTo(rows, |rows|, |rows| + 1) ==> Descending(rows)
  {
  }

  // ---- the report ----

  /** No address was read 2^32 times. */
  ghost predicate Unwrapped(log: seq<nat>) {
    forall a :: a in log ==> Occurrences(log, a) < WRAP
  }

  /** Each row shown tells the reads of its address, and no address left out was
      read more often. */
  ghost predicate MostRead(shown: seq<Row>, log: seq<nat>) {
    && (forall i :: 0 <= i < |shown| ==> shown[i].1 == Occurrences(log, shown[i].0))
    && (forall a, i :: a in log && !HasRow(shown, a) && 0 <= i < |shown| ==> Occurrences(log, a) <= shown[i].1)
  }

  lemma TopIsMostRead(rows: seq<Row>, log: seq<nat>, k: nat)
    requires Accurate(rows, log) && Descending(rows) && k <= |rows|
    requires |SetOf(log)| <= MAX_POLL_ADDRS && Unwrapped(log)
    ensures MostRead(rows[..k], log) && |rows| == |SetOf(log)|
  {
    hide Known, Occurrences;
    KnownAddresses(log);
    forall a, i | a in log && !HasRow(rows[..k], a) && 0 <= i < k
      ensures Occurrences(log, a) <= rows[i].1
    {
      RowBeyond(rows, k, a);
    }
  }

  lemma RowBeyond(rows: seq<Row>, k: nat, address: nat)
    requires k <= |rows| && HasRow(rows, address) && !HasRow(rows[..k], address)
    ensures exists j :: k <= j < |rows| && rows[j].0 == address
  {
    assert forall i :: 0 <= i < k ==> rows[..k][i] == rows[i];
    var j :| 0 <= j < |rows| && rows[j].0 == address;
    assert k <= j;
  }

  class Table {
    const paddr: array<nat>
    const count: array<nat>
    var n: nat
    ghost var log: seq<nat>

    ghost predicate Shape()
      reads this
    {
      paddr != count && paddr.Length == count.Length == MAX_POLL_ADDRS && n <= MAX_POLL_ADDRS
    }

    ghost function Rows(): (rows: seq<Row>)
      reads this, paddr, count
      requires Shape()
      ensures |rows| == n
      ensures forall i :: 0 <= i < n ==> rows[i] == (paddr[i], count[i])
    {
      seq(n, i requires 0 <= i < n && Shape() reads this, paddr, count => (paddr[i], count[i]))
    }

    ghost predicate Valid()
      reads this, paddr, count
    {
      Shape() && Accurate(Rows(), log)
    }

    constructor ()
      ensures Valid() && log == [] && fresh(paddr) && fresh(count)
    {
      paddr := new nat[MAX_POLL_ADDRS];
      count := new nat[MAX_POLL_ADDRS];
      n, log := 0, [];
    }

    /** poll_note. */
    method Note(address: nat)
      requires Valid()
      modifies this, paddr, count
      ensures Valid() && log == old(log) + [address]
    {
      hide Accurate;
      ghost var rows := Rows();
      ghost var before := log;
      var i := 0;
      while i < n
        invariant 0 <= i <= n
        invariant forall k :: 0 <= k < i ==> paddr[k] != address
      {
        if paddr[i] == address {
          CountedAgain(rows, log, i);
          count[i] := (count[i] + 1) % WRAP;
          log := log + [address];
          assert Rows() == rows[i := (address, (rows[i].1 + 1) % WRAP)];
          return;
        }
        i := i + 1;
      }
      FirstCount(rows, log, address);
      log := log + [address];
      if n < MAX_POLL_ADDRS {
        paddr[n] := address;
        count[n] := 1;
        n := n + 1;
        assert Rows() == rows + [(address, 1)];
      } else {
        assert Rows() == rows;
      }
    }

    method Swap(i: nat, j: nat)
      requires Shape() && i < j < n
      modifies paddr, count
      ensures Rows() == Swapped(old(Rows()), i, j)
    {
      paddr[i], paddr[j] := paddr[j], paddr[i];
      count[i], count[j] := count[j], count[i];
    }

    /** The exchange sort of memcpy_report. */
    method Sort()
      requires Valid()
      modifies paddr, count
      ensures Valid()
      ensures Descending(Rows()) && multiset(Rows()) == multiset(old(Rows()))
    {
      hide Accurate, Swapped, SortedUpTo, Descending;
      ghost var rows := Rows();
      AllDone(rows);
      var i := 0;
      while i < n
        invariant i <= n
        invariant Accurate(Rows(), log) && multiset(Rows()) == multiset(rows)
        invariant SortedUpTo(Rows(), i, i + 1)
      {
        var j := i + 1;
        while j < n
          invariant i < j <= n
          invariant Accurate(Rows(), log) && multiset(Rows()) == multiset(rows)
          invariant SortedUpTo(Rows(), i, j)
        {
          if count[j] > count[i] {
            SwapSorts(Rows(), i, j);
            SwapKeepsRows(Rows(), i, j);
            SwapKeepsAccurate(Rows(), i, j, log);
            Swap(i, j);
          } else {
            RowStays(Rows(), i, j);
          }
          j := j + 1;
        }
        RowDone(Rows(), i);
        i := i + 1;
      }
      AllDone(Rows());
    }

    /** Sorts, and returns the rows that the report prints. */
    method Report() returns (shown: seq<Row>)
      requires Valid()
      modifies paddr, count
      ensures Valid()
      ensures multiset(Rows()) == multiset(old(Rows()))
      ensures |shown| == (if n < SHOWN then n else SHOWN) && shown <= Rows() && Descending(shown)
      ensures |SetOf(log)| <= MAX_POLL_ADDRS && Unwrapped(log) ==> MostRead(shown, log) && n == |SetOf(log)|
    {
      hide Accurate, MostRead, Unwrapped;
      Sort();
      shown := [];
      var i := 0;
      while i < n && i < SHOWN
        invariant i <= n && i <= SHOWN
        invariant shown == Rows()[..i]
      {
        shown := shown + [(paddr[i], count[i])];
        i := i + 1;
      }
      if |SetOf(log)| <= MAX_POLL_ADDRS && Unwrapped(log) {
        TopIsMostRead(Rows(), log, i);
      }
    }
  }
}
