/** The bounded audit log: each insert is followed by a delete of all but the 2000 rows
    a descending order by timestamp puts first, ties broken however the database likes. */
module AuditLog {
  import opened Tables

  const RETENTION: nat := 2000

  datatype Audit = Audit(id: string, timestamp: int)

  function Min(a: nat, b: nat): nat { if a <= b then a else b }

  // ---------------------------------------------------------------- the k largest

  /** `top` consists of the `k` largest of `all`, or of all when there are fewer. */
  ghost predicate IsTop(top: multiset<int>, all: multiset<int>, k: nat) {
    && top <= all
    && |top| == Min(|all|, k)
    && forall x, y :: x in top && y in all - top ==> x >= y
  }

  lemma SizeOfRest(a: multiset<int>, b: multiset<int>)
    requires a <= b
    ensures |b| == |a| + |b - a|
    ensures a == b || |a| < |b|
  {
    assert b == a + (b - a);
  }

  lemma SomeElement(a: multiset<int>) returns (z: int)
    requires a != multiset{}
    ensures z in a
  {
    if forall x: int :: x !in a {
      assert false;
    }
    z :| z in a;
  }

  lemma MoreHasExtra(a: multiset<int>, b: multiset<int>) returns (z: int)
    requires |a| >= |b| && a != b
    ensures a[z] > b[z]
  {
    var extra: multiset<int> := a - b;
    assert a == extra + a * b;
    if extra == multiset{} {
      SizeOfRest(a, b);
      assert false;
    }
    z := SomeElement(extra);
  }

  /** What a top-k collection has is at least anything it lacks. */
  lemma TopBeatsRest(t: multiset<int>, all: multiset<int>, k: nat, y: int, x: int)
    requires IsTop(t, all, k) && y in t && all[x] > t[x]
    ensures y >= x
  {
    assert x in all - t;
  }

  /** The k largest of a collection are one multiset, however ties are broken. */
  lemma TopUnique(s: multiset<int>, t: multiset<int>, all: multiset<int>, k: nat)
    requires IsTop(s, all, k) && IsTop(t, all, k)
    ensures s == t
  {
    if s != t {
      var x := MoreHasExtra(s, t);
      var y := MoreHasExtra(t, s);
      TopBeatsRest(t, all, k, y, x);
      TopBeatsRest(s, all, k, x, y);
      assert false;
    }
  }

  /** Keeping the k largest after every insert loses nothing against keeping everything
      and taking the k largest at the end. */
  lemma TopStep(top: multiset<int>, all: multiset<int>, x: int, top': multiset<int>, k: nat)
    requires IsTop(top, all, k) && IsTop(top', top + multiset{x}, k)
    ensures IsTop(top', all + multiset{x}, k)
  {
    var (grown, all') := (top + multiset{x}, all + multiset{x});
    assert top' <= all';
    forall p, q | p in top' && q in all' - top' ensures p >= q {
      if q !in grown - top' {
        assert q in all - top;
        SizeOfRest(top, all);
        if p !in top {
          assert p == x && top'[x] == grown[x];
          var z := MoreHasExtra(grown, top');
          assert z in top && z in grown - top';
        }
      }
    }
  }

  // ---------------------------------------------------------------- the statement

  function IdOf(a: Audit): string { a.id }

  function Timestamps(rows: seq<Audit>): multiset<int> {
    if rows == [] then multiset{} else Timestamps(rows[1..]) + multiset{rows[0].timestamp}
  }

  lemma {:induction false} TimestampsAppend(rows: seq<Audit>, a: Audit)
    ensures Timestamps(rows + [a]) == Timestamps(rows) + multiset{a.timestamp}
  {
    if rows != [] {
      assert (rows + [a])[1..] == rows[1..] + [a];
      TimestampsAppend(rows[1..], a);
    }
  }

  function Selected(ids: set<string>): Audit -> bool { (a: Audit) => a.id in ids }

  function Unselected(ids: set<string>): Audit -> bool { (a: Audit) => a.id !in ids }

  /** A possible answer to SELECT id ORDER BY timestamp DESC LIMIT 2000. */
  ghost predicate IsSelection(rows: seq<Audit>, ids: set<string>) {
    && |Filter(rows, Selected(ids))| == Min(|rows|, RETENTION)
    && forall a, b :: a in rows && b in rows && a.id in ids && b.id !in ids ==> a.timestamp >= b.timestamp
  }

  lemma {:induction false} TimestampsSize(rows: seq<Audit>)
    ensures |Timestamps(rows)| == |rows|
  {
    if rows != [] {
      TimestampsSize(rows[1..]);
    }
  }

  lemma TimestampsOfFilter(rows: seq<Audit>, keep: Audit -> bool)
    requires rows != []
    ensures Timestamps(Filter(rows, keep))
              == (if keep(rows[0]) then multiset{rows[0].timestamp} else multiset{})
                 + Timestamps(Filter(rows[1..], keep))
  {
    var rest := Filter(rows[1..], keep);
    assert ([rows[0]] + rest)[1..] == rest && [] + rest == rest;
  }

  lemma {:induction false} TimestampsSplit(rows: seq<Audit>, ids: set<string>)
    ensures Timestamps(rows) == Timestamps(Filter(rows, Selected(ids))) + Timestamps(Filter(rows, Unselected(ids)))
  {
    if rows != [] {
      TimestampsSplit(rows[1..], ids);
      TimestampsOfFilter(rows, Selected(ids));
      TimestampsOfFilter(rows, Unselected(ids));
    }
  }

  lemma {:induction false} TimestampOfRow(rows: seq<Audit>, t: int)
    ensures t in Timestamps(rows) ==> exists a :: a in rows && a.timestamp == t
  {
    if rows != [] {
      TimestampOfRow(rows[1..], t);
      assert rows[0] in rows;
    }
  }

  /** Whatever the tie-breaking, the rows kept carry the 2000 largest timestamps. */
  lemma SelectionIsTop(rows: seq<Audit>, ids: set<string>)
    requires IsSelection(rows, ids)
    ensures IsTop(Timestamps(Filter(rows, Selected(ids))), Timestamps(rows), RETENTION)
  {
    var (kept, rest) := (Filter(rows, Selected(ids)), Filter(rows, Unselected(ids)));
    TimestampsSplit(rows, ids);
    TimestampsSize(rows);
    TimestampsSize(kept);
    KeptBeatRest(rows, ids);
    assert Timestamps(rows) - Timestamps(kept) == Timestamps(rest);
  }

  lemma KeptBeatRest(rows: seq<Audit>, ids: set<string>)
    requires IsSelection(rows, ids)
    ensures forall x, y ::
              x in Timestamps(Filter(rows, Selected(ids))) && y in Timestamps(Filter(rows, Unselected(ids))) ==> x >= y
  {
    var (kept, rest) := (Filter(rows, Selected(ids)), Filter(rows, Unselected(ids)));
    forall x, y | x in Timestamps(kept) && y in Timestamps(rest) ensures x >= y {
      TimestampOfRow(kept, x);
      TimestampOfRow(rest, y);
    }
  }

  /** Insert and trim: the log stays the 2000 latest of everything recorded. */
  lemma InsertAndTrim(rows: seq<Audit>, recorded: seq<Audit>, row: Audit, ids: set<string>)
    requires IsTop(Timestamps(rows), Timestamps(recorded), RETENTION) && IsSelection(rows + [row], ids)
    ensures IsTop(Timestamps(Filter(rows + [row], Selected(ids))), Timestamps(recorded + [row]), RETENTION)
  {
    SelectionIsTop(rows + [row], ids);
    TimestampsAppend(rows, row);
    TimestampsAppend(recorded, row);
    var kept := Filter(rows + [row], Selected(ids));
    TopStep(Timestamps(rows), Timestamps(recorded), row.timestamp, Timestamps(kept), RETENTION);
  }

  // ---------------------------------------------------------------- the two statements apart

  lemma {:induction false} LeastElement(a: multiset<int>) returns (z: int)
    requires a != multiset{}
    ensures z in a && forall x :: x in a ==> z <= x
    decreases |a|
  {
    var w := SomeElement(a);
    var rest := a - multiset{w};
    assert a == rest + multiset{w};
    if rest == multiset{} {
      z := w;
    } else {
      var m := LeastElement(rest);
      z := if m < w then m else w;
    }
  }

  lemma {:induction false} TopExists(all: multiset<int>, k: nat) returns (top: multiset<int>)
    ensures IsTop(top, all, k)
    decreases |all|
  {
    if |all| <= k {
      top := all;
    } else {
      var z := LeastElement(all);
      var rest := all - multiset{z};
      assert all == rest + multiset{z};
      top := TopExists(rest, k);
      assert all - top == (rest - top) + multiset{z};
    }
  }

  /** The table still has the 2000 latest of everything recorded among its rows. */
  ghost predicate Covers(rows: seq<Audit>, recorded: seq<Audit>) {
    exists top :: IsTop(top, Timestamps(rows), RETENTION) && IsTop(top, Timestamps(recorded), RETENTION)
  }

  /** A call's insert, or its delete with the answer of the subquery. */
  datatype Statement = Insert(row: Audit) | Trim(ids: set<string>)

  function After(rows: seq<Audit>, s: Statement): seq<Audit> {
    match s
    case Insert(row) => rows + [row]
    case Trim(ids) => Filter(rows, Selected(ids))
  }

  function AfterAll(rows: seq<Audit>, ss: seq<Statement>): seq<Audit> {
    if ss == [] then rows else After(AfterAll(rows, ss[..|ss| - 1]), ss[|ss| - 1])
  }

  function Inserted(ss: seq<Statement>): seq<Audit> {
    if ss == [] then []
    else
      var (rest, last) := (Inserted(ss[..|ss| - 1]), ss[|ss| - 1]);
      if last.Insert? then rest + [last.row] else rest
  }

  /** Every delete keeps what some descending order puts first at that moment. */
  ghost predicate Answers(rows: seq<Audit>, ss: seq<Statement>) {
    ss != [] ==>
      && Answers(rows, ss[..|ss| - 1])
      && (ss[|ss| - 1].Trim? ==> IsSelection(AfterAll(rows, ss[..|ss| - 1]), ss[|ss| - 1].ids))
  }

  lemma InsertCovers(rows: seq<Audit>, recorded: seq<Audit>, row: Audit)
    requires Covers(rows, recorded)
    ensures Covers(rows + [row], recorded + [row])
  {
    var top :| IsTop(top, Timestamps(rows), RETENTION) && IsTop(top, Timestamps(recorded), RETENTION);
    var top' := TopExists(top + multiset{row.timestamp}, RETENTION);
    TopStep(top, Timestamps(rows), row.timestamp, top', RETENTION);
    TopStep(top, Timestamps(recorded), row.timestamp, top', RETENTION);
    TimestampsAppend(rows, row);
    TimestampsAppend(recorded, row);
  }

  /** One successful delete restores the exact state, however far the table had grown. */
  lemma TrimRestores(rows: seq<Audit>, recorded: seq<Audit>, ids: set<string>)
    requires Covers(rows, recorded) && IsSelection(rows, ids)
    ensures IsTop(Timestamps(Filter(rows, Selected(ids))), Timestamps(recorded), RETENTION)
    ensures |Filter(rows, Selected(ids))| == Min(|recorded|, RETENTION)
    ensures Covers(Filter(rows, Selected(ids)), recorded)
  {
    var top :| IsTop(top, Timestamps(rows), RETENTION) && IsTop(top, Timestamps(recorded), RETENTION);
    var kept := Filter(rows, Selected(ids));
    SelectionIsTop(rows, ids);
    TopUnique(top, Timestamps(kept), Timestamps(rows), RETENTION);
    TimestampsSize(kept);
    TimestampsSize(recorded);
    assert IsTop(top, Timestamps(kept), RETENTION);
  }

  /** However the inserts and deletes of concurrent calls interleave, and whichever deletes
      fail, the table holds at least min(n, 2000) rows, the 2000 latest among them, and is
      exact after each delete that succeeds. */
  lemma {:induction false} AlwaysCovers(ss: seq<Statement>)
    requires Answers([], ss)
    ensures Covers(AfterAll([], ss), Inserted(ss))
    ensures |AfterAll([], ss)| >= Min(|Inserted(ss)|, RETENTION)
    ensures ss != [] && ss[|ss| - 1].Trim? ==>
              IsTop(Timestamps(AfterAll([], ss)), Timestamps(Inserted(ss)), RETENTION)
  {
    if ss == [] {
      assert IsTop(multiset{}, Timestamps([]), RETENTION);
    } else {
      var (rest, last) := (ss[..|ss| - 1], ss[|ss| - 1]);
      AlwaysCovers(rest);
      match last
      case Insert(row) => InsertCovers(AfterAll([], rest), Inserted(rest), row);
      case Trim(ids) => TrimRestores(AfterAll([], rest), Inserted(rest), ids);
    }
  }

  // ---------------------------------------------------------------- the log

  function HasID(id: string): Audit -> bool { (a: Audit) => a.id == id }

  predicate IsNew(rows: seq<Audit>, row: Audit) { Find(rows, HasID(row.id)) == |rows| }

  lemma NewIff(rows: seq<Audit>, row: Audit)
    ensures IsNew(rows, row) <==> forall a :: a in rows ==> a.id != row.id
  {
    var i := Find(rows, HasID(row.id));
    forall k | 0 <= k < i ensures rows[k].id != row.id {
      assert !HasID(row.id)(rows[k]);
    }
  }

  lemma InsertedUnique(rows: seq<Audit>, row: Audit)
    requires Unique(rows, IdOf) && IsNew(rows, row)
    ensures Unique(rows + [row], IdOf)
  {
    forall i | 0 <= i < |rows| ensures IdOf(rows[i]) != IdOf(row) {
      assert !HasID(row.id)(rows[i]);
    }
  }

  /** The row as it is inserted: an absent id or timestamp is filled in. */
  function Completed(audit: Audit, newID: string, now: int): Audit {
    Audit(if audit.id == "" then newID else audit.id, if audit.timestamp == 0 then now else audit.timestamp)
  }

  class Log {
    var rows: seq<Audit>
    /** Every audit ever inserted. */
    ghost var recorded: seq<Audit>

    constructor ()
      ensures Valid() && recorded == []
    {
      rows, recorded := [], [];
    }

    /** The table refines the full log: its rows are recorded ones, with the 2000 latest
        timestamps of all. */
    ghost predicate Valid()
      reads this
    {
      && Unique(rows, IdOf) && (forall a :: a in rows ==> a in recorded)
      && IsTop(Timestamps(rows), Timestamps(recorded), RETENTION)
    }

    /** `newID` and `now` fill in an absent id or timestamp; `ids` is the answer of the
        subquery that runs when the insert succeeds. An insert that repeats an id fails
        and changes nothing. */
    method RecordAudit(audit: Audit, newID: string, now: int, ids: set<string>) returns (ok: bool)
      requires Valid() && newID != ""
      requires var row := Completed(audit, newID, now); IsNew(rows, row) ==> IsSelection(rows + [row], ids)
      modifies this
      ensures Valid() && (!ok ==> rows == old(rows) && recorded == old(recorded))
      ensures var id := if audit.id == "" then newID else audit.id;
              && (ok <==> forall a :: a in old(rows) ==> a.id != id)
              && (ok ==> recorded == old(recorded)
                                     + [Audit(id, if audit.timestamp == 0 then now else audit.timestamp)])
      ensures |rows| == if |recorded| < 2000 then |recorded| else 2000
    {
      var row := Completed(audit, newID, now);
      NewIff(rows, row);
      if !IsNew(rows, row) {
        TimestampsSize(rows);
        TimestampsSize(recorded);
        return false;
      }
      InsertAndTrim(rows, recorded, row, ids);
      InsertedUnique(rows, row);
      FilterUnique(rows + [row], Selected(ids), IdOf);
      rows, recorded := Filter(rows + [row], Selected(ids)), recorded + [row];
      TimestampsSize(rows);
      TimestampsSize(recorded);
      return true;
    }
  }
}
