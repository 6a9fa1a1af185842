/** The record files of src/record.c: a file of whole records, mapped into memory and changed in place. */
module Record {

  /** A file after `n` records from `from` have been copied to `to`. */
  function Overlaid<T>(s: seq<T>, to: nat, from: nat, n: nat): (r: seq<T>)
    requires to + n <= |s| && from + n <= |s|
    ensures |r| == |s|
  {
    s[..to] + s[from..from+n] + s[to+n..]
  }

  /** Copies `n` records from `from` to `to` within the file; the regions may overlap. */
  method MemMove<T>(buf: array<T>, to: nat, from: nat, n: nat)
    requires to + n <= buf.Length && from + n <= buf.Length
    modifies buf
    ensures buf[..] == Overlaid(old(buf[..]), to, from, n)
  {
    forall i | to <= i < to + n {
      buf[i] := buf[i - to + from];
    }
  }

  // ---------------------------------------------------------------- what the operations do

  /** The records a callback keeps, as it leaves them, and the state it ends in. The callback sees every record in
      order, may change it and its own state, and says whether to keep it. */
  function Kept<S, T>(check: (S, T) -> (S, T, bool), st: S, recs: seq<T>): (seq<T>, S) {
    if recs == [] then ([], st)
    else
      var before := Kept(check, st, recs[..|recs|-1]);
      var r := check(before.1, recs[|recs|-1]);
      (if r.2 then before.0 + [r.1] else before.0, r.0)
  }

  function Removed<T>(recs: seq<T>, id: nat): seq<T>
    requires 0 < id <= |recs|
  {
    recs[..id-1] + recs[id..]
  }

  /** Record `src` taken out and put back as record `dst`. */
  function Moved<T>(recs: seq<T>, src: nat, dst: nat): (r: seq<T>)
    requires 0 < src <= |recs| && 0 < dst <= |recs|
    ensures |r| == |recs|
  {
    var others := Removed(recs, src);
    others[..dst-1] + [recs[src-1]] + others[dst-1..]
  }

  /** A move turns the records between the two places round by one. */
  lemma MovedDown<T>(recs: seq<T>, src: nat, dst: nat)
    requires 0 < dst < src <= |recs|
    ensures Moved(recs, src, dst) == recs[..dst-1] + [recs[src-1]] + recs[dst-1..src-1] + recs[src..]
    ensures recs == recs[..dst-1] + recs[dst-1..src-1] + [recs[src-1]] + recs[src..]
  {
    var others := Removed(recs, src);
    assert others[..dst-1] == recs[..dst-1];
    assert others[dst-1..] == recs[dst-1..src-1] + recs[src..];
  }

  lemma MovedUp<T>(recs: seq<T>, src: nat, dst: nat)
    requires 0 < src <= dst <= |recs|
    ensures Moved(recs, src, dst) == recs[..src-1] + recs[src..dst] + [recs[src-1]] + recs[dst..]
    ensures recs == recs[..src-1] + [recs[src-1]] + recs[src..dst] + recs[dst..]
  {
    var others := Removed(recs, src);
    assert others[..dst-1] == recs[..src-1] + recs[src..dst];
    assert others[dst-1..] == recs[dst..];
  }

  lemma SwapParts<T>(a: seq<T>, b: seq<T>, c: seq<T>, d: seq<T>)
    ensures multiset(a + b + c + d) == multiset(a + c + b + d)
  {
    assert multiset(a + b + c + d) == multiset(a) + multiset(b) + multiset(c) + multiset(d);
    assert multiset(a + c + b + d) == multiset(a) + multiset(c) + multiset(b) + multiset(d);
  }

  lemma MovedIsPermutation<T>(recs: seq<T>, src: nat, dst: nat)
    requires 0 < src <= |recs| && 0 < dst <= |recs|
    ensures multiset(Moved(recs, src, dst)) == multiset(recs)
  {
    hide Moved;
    if src > dst {
      MovedDown(recs, src, dst);
      SwapParts(recs[..dst-1], [recs[src-1]], recs[dst-1..src-1], recs[src..]);
    } else {
      MovedUp(recs, src, dst);
      SwapParts(recs[..src-1], recs[src..dst], [recs[src-1]], recs[dst..]);
    }
  }

  lemma DownMove<T>(a: seq<T>, b: seq<T>, x: T, d: seq<T>)
    ensures Overlaid(a + b + [x] + d, |a| + 1, |a|, |b|)[|a| := x] == a + [x] + b + d
  {
    var s := a + b + [x] + d;
    assert s[..|a|+1][..|a|] == a;
    assert s[|a|..|a|+|b|] == b;
    assert s[|a|+1+|b|..] == d;
  }

  lemma UpMove<T>(a: seq<T>, b: seq<T>, x: T, d: seq<T>)
    ensures Overlaid(a + [x] + b + d, |a|, |a| + 1, |b|)[|a| + |b| := x] == a + b + [x] + d
  {
    var s := a + [x] + b + d;
    assert s[..|a|] == a;
    assert s[|a|+1..|a|+1+|b|] == b;
    assert s[|a|+|b|..][1..] == d;
  }

  /** A move is undone by the opposite move. */
  lemma MoveUndone<T>(recs: seq<T>, src: nat, dst: nat)
    requires 0 < src <= |recs| && 0 < dst <= |recs|
    ensures Moved(Moved(recs, src, dst), dst, src) == recs
  {
    var others := Removed(recs, src);
    var moved := Moved(recs, src, dst);
    assert moved[dst-1] == recs[src-1];
    assert Removed(moved, dst) == others;
  }

  /** What is left after a record is taken out: those before it, and those after it one place up. */
  lemma RemovedAt<T>(recs: seq<T>, id: nat, i: nat)
    requires 0 < id <= |recs| && i < |recs| - 1
    ensures |Removed(recs, id)| == |recs| - 1 && Removed(recs, id)[i] == if i < id - 1 then recs[i] else recs[i+1]
  {
  }

  /** A move puts the record where it is to go and leaves the others in their order. */
  lemma MovedThere<T>(recs: seq<T>, src: nat, dst: nat)
    requires 0 < src <= |recs| && 0 < dst <= |recs|
    ensures Moved(recs, src, dst)[dst-1] == recs[src-1]
    ensures Removed(Moved(recs, src, dst), dst) == Removed(recs, src)
  {
  }

  lemma KeptNone<S(!new), T(!new)>(check: (S, T) -> (S, T, bool), st: S, r: T)
    requires forall s, t :: !check(s, t).2
    ensures Kept(check, st, [r]).0 == []
  {
    assert [r][..0] == [];
  }

  /** What process_records leaves. */
  function Processed<S, T>(check: (S, T) -> (S, T, bool), st: S, recs: seq<T>, id1: nat, id2: nat): seq<T>
    requires 0 < id1 <= id2 && id1 <= |recs|
  {
    var endpoint := if id2 > |recs| then |recs| else id2;
    recs[..id1-1] + Kept(check, st, recs[id1-1..endpoint]).0 + recs[endpoint..]
  }

  /** Deleting one record is processing it with a callback that drops everything. */
  lemma DeletingIsProcessing<S(!new), T(!new)>(check: (S, T) -> (S, T, bool), st: S, recs: seq<T>, id: nat)
    requires 0 < id <= |recs| && forall s, t :: !check(s, t).2
    ensures Processed(check, st, recs, id, id) == Removed(recs, id)
  {
    assert recs[id-1..id] == [recs[id-1]];
    KeptNone(check, st, recs[id-1]);
  }

  /** A callback that keeps and changes nothing leaves the file alone. */
  lemma {:induction false} KeepingAllChangesNothing<S(!new), T(!new)>(check: (S, T) -> (S, T, bool), st: S,
                                                                     recs: seq<T>)
    requires forall s, t :: check(s, t).1 == t && check(s, t).2
    ensures Kept(check, st, recs).0 == recs
    decreases |recs|
  {
    if recs != [] {
      var last := recs[|recs|-1];
      KeepingAllChangesNothing(check, st, recs[..|recs|-1]);
      var before := Kept(check, st, recs[..|recs|-1]);
      assert check(before.1, last).1 == last && check(before.1, last).2;
      assert recs[..|recs|-1] + [last] == recs;
    }
  }

  /** What one pass keeps of two stretches is what it keeps of the first and then, in the state that leaves, of the
      second. */
  lemma {:induction false} KeptInTurn<S, T>(check: (S, T) -> (S, T, bool), st: S, a: seq<T>, b: seq<T>)
    ensures var first := Kept(check, st, a);
      var second := Kept(check, first.1, b);
      Kept(check, st, a + b) == (first.0 + second.0, second.1)
    decreases |b|
  {
    var first := Kept(check, st, a);
    if b == [] {
      assert a + b == a && first.0 + [] == first.0;
    } else {
      var init, last := b[..|b|-1], b[|b|-1];
      KeptInTurn(check, st, a, init);
      assert (a + b)[..|a+b|-1] == a + init && (a + b)[|a+b|-1] == last;
      var before := Kept(check, first.1, init);
      var r := check(before.1, last);
      assert first.0 + (before.0 + [r.1]) == (first.0 + before.0) + [r.1];
    }
  }

  /** The records that `keep` picks, each as `edit` leaves it. */
  function Picked<T>(recs: seq<T>, keep: T -> bool, edit: T -> T): seq<T> {
    if recs == [] then []
    else (if keep(recs[0]) then [edit(recs[0])] else []) + Picked(recs[1..], keep, edit)
  }

  /** A callback that writes down what it sees, sees every record once and in order; the file keeps exactly the records
      it wants, as it leaves them. */
  lemma {:induction false} EachIsSeenOnce<T(!new)>(check: (seq<T>, T) -> (seq<T>, T, bool), seen: seq<T>, recs: seq<T>,
                                                   keep: T -> bool, edit: T -> T)
    requires forall h, t :: check(h, t) == (h + [t], edit(t), keep(t))
    ensures Kept(check, seen, recs) == (Picked(recs, keep, edit), seen + recs)
    decreases |recs|
  {
    if recs == [] {
      assert seen + recs == seen;
    } else {
      var one := [recs[0]];
      assert one[..0] == [];
      assert recs == one + recs[1..];
      KeptInTurn(check, seen, one, recs[1..]);
      assert Kept(check, seen, one[..0]) == ([], seen);
      assert [] + [edit(recs[0])] == [edit(recs[0])];
      assert check(seen, recs[0]) == (seen + one, edit(recs[0]), keep(recs[0]));
      assert Kept(check, seen, one) == (if keep(recs[0]) then [edit(recs[0])] else [], seen + one);
      EachIsSeenOnce(check, seen + one, recs[1..], keep, edit);
      assert seen + one + recs[1..] == seen + recs;
    }
  }

  /** Dropping a range leaves what comes before its first record and what comes after its last, which may lie beyond the
      file. */
  lemma DroppingLeavesTheRest<S(!new), T(!new)>(check: (S, T) -> (S, T, bool), st: S, recs: seq<T>, id1: nat, id2: nat)
    requires 0 < id1 <= id2 && id1 <= |recs| && forall s, t :: !check(s, t).2
    ensures Processed(check, st, recs, id1, id2) == recs[..id1-1] + if id2 < |recs| then recs[id2..] else []
  {
    DroppingAll(check, st, recs[id1-1..if id2 > |recs| then |recs| else id2]);
    assert recs[|recs|..] == [];
  }

  lemma {:induction false} DroppingAll<S(!new), T(!new)>(check: (S, T) -> (S, T, bool), st: S, recs: seq<T>)
    requires forall s, t :: !check(s, t).2
    ensures Kept(check, st, recs).0 == []
    decreases |recs|
  {
    if recs != [] {
      DroppingAll(check, st, recs[..|recs|-1]);
    }
  }

  lemma KeptStep<S, T>(check: (S, T) -> (S, T, bool), st: S, recs: seq<T>, n: nat)
    requires n < |recs|
    ensures var before := Kept(check, st, recs[..n]);
      var r := check(before.1, recs[n]);
      Kept(check, st, recs[..n+1]) == (if r.2 then before.0 + [r.1] else before.0, r.0)
  {
    assert recs[..n+1][..n] == recs[..n];
  }

  // ---------------------------------------------------------------- in place

  /** Moves a record towards the front: those it passes shift up, overlapping, as a whole. */
  method RotateDown<T>(buf: array<T>, n: nat, src: nat, dst: nat)
    requires n <= buf.Length && 0 < dst < src <= n
    modifies buf
    ensures buf[..n] == Moved(old(buf[..n]), src, dst)
  {
    hide Moved, Overlaid;
    ghost var all := buf[..];
    var tmprec := buf[src-1];
    MemMove(buf, dst, dst - 1, src - dst);
    buf[dst-1] := tmprec;
    assert buf[..] == Overlaid(all, dst, dst - 1, src - dst)[dst-1 := tmprec];
    MovedDown(all, src, dst);
    DownMove(all[..dst-1], all[dst-1..src-1], tmprec, all[src..]);
    MovedPrefix(all, n, src, dst);
    assert buf[..n] == buf[..][..n] && old(buf[..n]) == all[..n];
  }

  /** Moves a record towards the end: those it passes shift down. */
  method RotateUp<T>(buf: array<T>, n: nat, src: nat, dst: nat)
    requires n <= buf.Length && 0 < src < dst <= n
    modifies buf
    ensures buf[..n] == Moved(old(buf[..n]), src, dst)
  {
    hide Moved, Overlaid;
    ghost var all := buf[..];
    var tmprec := buf[src-1];
    MemMove(buf, src - 1, src, dst - src);
    buf[dst-1] := tmprec;
    assert buf[..] == Overlaid(all, src - 1, src, dst - src)[dst-1 := tmprec];
    MovedUp(all, src, dst);
    UpMove(all[..src-1], all[src..dst], tmprec, all[dst..]);
    MovedPrefix(all, n, src, dst);
    assert buf[..n] == buf[..][..n] && old(buf[..n]) == all[..n];
  }

  lemma SlicesOfPrefix<T>(all: seq<T>, n: nat, a: nat, b: nat)
    requires a <= b <= n <= |all|
    ensures all[..n][..a] == all[..a] && all[..n][a..b] == all[a..b] && all[..n][b..] == all[b..][..n-b]
  {
  }

  lemma MovedPrefix<T>(all: seq<T>, n: nat, src: nat, dst: nat)
    requires n <= |all| && 0 < src <= n && 0 < dst <= n
    ensures Moved(all, src, dst)[..n] == Moved(all[..n], src, dst)
  {
    hide Moved;
    var head := all[..n];
    if src > dst {
      MovedDown(all, src, dst);
      MovedDown(head, src, dst);
      PrefixOfParts(all[..dst-1], [all[src-1]], all[dst-1..src-1], all[src..], n - src);
      SlicesOfPrefix(all, n, dst - 1, src - 1);
      SlicesOfPrefix(all, n, src, src);
    } else {
      MovedUp(all, src, dst);
      MovedUp(head, src, dst);
      PrefixOfParts(all[..src-1], all[src..dst], [all[src-1]], all[dst..], n - dst);
      SlicesOfPrefix(all, n, src - 1, src);
      SlicesOfPrefix(all, n, src, dst);
    }
  }

  lemma PrefixOfParts<T>(a: seq<T>, b: seq<T>, c: seq<T>, d: seq<T>, m: nat)
    requires m <= |d|
    ensures (a + b + c + d)[..|a|+|b|+|c|+m] == a + b + c + d[..m]
  {
  }

  /** Stores a record the callback has seen and, if it is kept, moves it to where the kept ones end. */
  method KeepAt<T>(buf: array<T>, fhdr: nat, preservation: nat, r: T, keep: bool, ghost first: nat)
    requires first <= preservation <= fhdr < buf.Length
    modifies buf
    ensures keep ==> buf[first..preservation+1] == old(buf[first..preservation]) + [r]
    ensures !keep ==> buf[first..preservation] == old(buf[first..preservation])
    ensures forall i :: 0 <= i < preservation || fhdr < i < buf.Length ==> buf[i] == old(buf[i])
  {
    buf[fhdr] := r;
    if keep && fhdr != preservation {
      ghost var now := buf[..];
      MemMove(buf, preservation, fhdr, 1);
      assert buf[..] == now[preservation := r];
      assert forall i :: 0 <= i < buf.Length ==> buf[i] == buf[..][i];
    }
  }

  /** Filters records `first` to `endpoint`, closing up what is dropped; what comes after is left alone. */
  method Filter<S, T>(buf: array<T>, first: nat, endpoint: nat, check: (S, T) -> (S, T, bool), st: S)
    returns (preservation: nat, st': S)
    requires first <= endpoint <= buf.Length
    modifies buf
    ensures first <= preservation <= endpoint
    ensures buf[first..preservation] == Kept(check, st, old(buf[first..endpoint])).0
    ensures st' == Kept(check, st, old(buf[first..endpoint])).1
    ensures forall i :: 0 <= i < first || endpoint <= i < buf.Length ==> buf[i] == old(buf[i])
  {
    hide Kept;
    ghost var range := buf[first..endpoint];
    var fhdr := first;
    preservation, st' := first, st;
    KeptNothing(check, st, range[..0]);
    while fhdr < endpoint
      invariant first <= preservation <= fhdr <= endpoint
      invariant forall i :: 0 <= i < first || fhdr <= i < buf.Length ==> buf[i] == old(buf[i])
      invariant buf[first..preservation] == Kept(check, st, range[..fhdr - first]).0
      invariant st' == Kept(check, st, range[..fhdr - first]).1
    {
      KeptStep(check, st, range, fhdr - first);
      assert buf[fhdr] == range[fhdr - first];
      var r := check(st', buf[fhdr]);
      st' := r.0;
      KeepAt(buf, fhdr, preservation, r.1, r.2, first);
      if r.2 {
        preservation := preservation + 1;
      }
      fhdr := fhdr + 1;
    }
    assert range[..endpoint - first] == range;
  }

  /** Filters records `id1` to `id2` of `n` and moves up what comes after them. */
  method FilterRange<S, T>(buf: array<T>, n: nat, id1: nat, id2: nat, check: (S, T) -> (S, T, bool), st: S)
    returns (n': nat, st': S)
    requires n <= buf.Length && 0 < id1 <= id2 && id1 <= n
    modifies buf
    ensures n' <= n && buf[..n'] == Processed(check, st, old(buf[..n]), id1, id2)
    ensures st' == Kept(check, st, old(buf[..n])[id1-1..if id2 > n then n else id2]).1
  {
    hide Kept;
    ghost var was := buf[..n];
    var first, endpoint := id1 - 1, if id2 > n then n else id2;
    var preservation;
    assert buf[first..endpoint] == was[first..endpoint];
    preservation, st' := Filter(buf, first, endpoint, check, st);
    ghost var now := buf[..];
    if endpoint != n {
      MemMove(buf, preservation, endpoint, n - id2);
    }
    n' := n - (endpoint - preservation);
    CloseUp(was, now, buf[..], n, first, preservation, endpoint);
    assert buf[..n'] == buf[..][..n'];
    assert now[first..preservation] == Kept(check, st, was[first..endpoint]).0;
  }

  lemma CloseUp<T>(was: seq<T>, now: seq<T>, end: seq<T>, n: nat, first: nat, kept: nat, endpoint: nat)
    requires first <= kept <= endpoint <= n == |was| && n <= |now|
    requires forall i :: 0 <= i < first || endpoint <= i < n ==> now[i] == was[i]
    requires end == if endpoint != n then Overlaid(now, kept, endpoint, n - endpoint) else now
    ensures end[..n - (endpoint - kept)] == was[..first] + now[first..kept] + was[endpoint..]
  {
    assert now[..first] == was[..first];
    assert now[endpoint..n] == was[endpoint..];
    assert end[..kept] == now[..kept];
  }

  lemma KeptNothing<S, T>(check: (S, T) -> (S, T, bool), st: S, recs: seq<T>)
    requires recs == []
    ensures Kept(check, st, recs) == ([], st)
  {
  }

  lemma RemovedPrefix<T>(all: seq<T>, n: nat, id: nat)
    requires 0 < id <= n <= |all|
    ensures Overlaid(all, id - 1, id, n - id)[..n-1] == Removed(all[..n], id)
  {
    assert all[id..n] == all[..n][id..];
  }

  // ---------------------------------------------------------------- the file

  /** A file of `n` records. Truncation shortens it; the mapping stays. */
  class RecordFile<T> {
    const buf: array<T>
    var n: nat

    ghost predicate Valid()
      reads this
    {
      n <= buf.Length
    }

    ghost function Contents(): seq<T>
      reads this, buf
      requires Valid()
    {
      buf[..n]
    }

    constructor (buf: array<T>)
      ensures Valid() && this.buf == buf && n == buf.Length
    {
      this.buf := buf;
      n := buf.Length;
    }

    method MoveRecord(srcid: int, dstid: int) returns (result: int)
      requires Valid()
      modifies buf
      ensures Valid() && n == old(n)
      ensures result == if srcid != dstid && (srcid <= 0 || dstid <= 0 || srcid > n || dstid > n) then -1 else 0
      ensures Contents()
           == if result == 0 && srcid != dstid then Moved(old(Contents()), srcid, dstid) else old(Contents())
    {
      if srcid == dstid {
        return 0;
      }
      if srcid <= 0 || dstid <= 0 {
        return -1;
      }
      if srcid > n || dstid > n {
        return -1;
      }
      if srcid > dstid {
        RotateDown(buf, n, srcid, dstid);
      } else {
        RotateUp(buf, n, srcid, dstid);
      }
      return 0;
    }

    method DeleteRecord(id: int) returns (result: int)
      requires Valid()
      modifies this`n, buf
      ensures Valid()
      ensures result == if id <= 0 || id > old(n) then -1 else 0
      ensures Contents() == if result == 0 then Removed(old(Contents()), id) else old(Contents())
    {
      if id <= 0 {
        return -1;
      }
      if n == 0 || id > n {
        return -1;
      }
      ghost var all := buf[..];
      if id < n {
        MemMove(buf, id - 1, id, n - id);
      }
      RemovedPrefix(all, n, id);
      n := n - 1;
      assert buf[..n] == buf[..][..n] && old(buf[..n]) == all[..n+1];
      return 0;
    }

    /** Filters records `id1` to `id2` in place; what is dropped closes up and the file is cut to length. */
    method ProcessRecords<S>(id1: int, id2: int, check: (S, T) -> (S, T, bool), st: S) returns (result: int, st': S)
      requires Valid()
      modifies this`n, buf
      ensures Valid()
      ensures result == if id1 <= 0 || id2 < id1 || id1 > old(n) then -1 else 0
      ensures result == 0 ==> Contents() == Processed(check, st, old(Contents()), id1, id2)
      ensures result == 0 ==> st' == Kept(check, st, old(Contents())[id1-1..if id2 > old(n) then old(n) else id2]).1
      ensures result != 0 ==> Contents() == old(Contents()) && st' == st
    {
      st' := st;
      if id1 <= 0 || id2 < id1 {
        return -1, st';
      }
      if id1 > n {
        return -1, st';
      }
      n, st' := FilterRange(buf, n, id1, id2, check, st);
      return 0, st';
    }
  }

  // ---------------------------------------------------------------- searching

  /** The first record from `k` on that matches, or the number of records if none does. */
  function FirstWhere<T>(recs: seq<T>, m: T -> bool, k: nat): (i: nat)
    requires k <= |recs|
    ensures k <= i <= |recs| && (i < |recs| ==> m(recs[i]))
    ensures forall j :: k <= j < i ==> !m(recs[j])
    decreases |recs| - k
  {
    if k == |recs| || m(recs[k]) then k else FirstWhere(recs, m, k + 1)
  }

  /** The last record before `k` that matches, or -1 if none does. */
  function LastWhere<T>(recs: seq<T>, m: T -> bool, k: nat): (i: int)
    requires k <= |recs|
    ensures -1 <= i < k && (i >= 0 ==> m(recs[i]))
    ensures forall j :: i < j < k ==> !m(recs[j])
  {
    if k == 0 then -1 else if m(recs[k-1]) then k - 1 else LastWhere(recs, m, k - 1)
  }

  /** Record `ent` if it matches, and otherwise the first that does, counted from zero. */
  function EntryOrFirst<T>(recs: seq<T>, m: T -> bool, ent: int): nat {
    if 0 < ent <= |recs| && m(recs[ent-1]) then ent - 1 else FirstWhere(recs, m, 0)
  }

  // ---------------------------------------------------------------- substitution

  datatype FileHeader = FileHeader(filetime: int, filename: string, rest: seq<int>)

  predicate SameKey(a: FileHeader, b: FileHeader) {
    a.filetime == b.filetime && a.filename == b.filename
  }

  function Matches(fhdr: FileHeader): FileHeader -> bool {
    h => SameKey(h, fhdr)
  }

  /** The place of the last slash, or -1. */
  function LastSlash(path: string): (i: int)
    ensures -1 <= i < |path| && (i >= 0 ==> path[i] == '/')
    ensures forall j :: i < j < |path| ==> path[j] != '/'
  {
    if path == "" then -1 else if path[|path|-1] == '/' then |path| - 1 else LastSlash(path[..|path|-1])
  }

  function Named(filename: string): FileHeader -> bool {
    (h: FileHeader) => h.filename == filename
  }

  /** Deletes record `ent` if it bears the name and otherwise the first that does, and on request the file of that name
      beside the directory file. A directory path without a slash is refused. */
  method DeleteFile(direct: string, f: RecordFile<FileHeader>, ent: int, filename: string, remove: bool)
    returns (result: int, unlinked: seq<string>)
    requires f.Valid()
    modifies f`n, f.buf
    ensures f.Valid()
    ensures var recs := old(f.Contents()); var i := EntryOrFirst(recs, Named(filename), ent);
      if LastSlash(direct) >= 0 && i < |recs| then
        && result == 0 && f.Contents() == Removed(recs, i + 1)
        && unlinked == (if remove then [direct[..LastSlash(direct)] + "/" + filename] else [])
      else
        result == -1 && f.Contents() == recs && unlinked == []
  {
    hide LastSlash, Removed;
    unlinked := [];
    var slash := LastSlash(direct);
    if slash < 0 {
      return -1, [];
    }
    var fname := direct[..slash] + "/" + filename;
    if f.n == 0 {
      return -1, [];
    }
    ghost var recs := f.Contents();
    var id := ent;
    if !(0 < ent <= f.n && f.buf[ent-1].filename == filename) {
      id := 1;
      while id <= f.n && f.buf[id-1].filename != filename
        invariant 1 <= id <= f.n + 1 && forall j :: 0 <= j < id - 1 ==> !Named(filename)(recs[j])
      {
        id := id + 1;
      }
      if id > f.n {
        return -1, [];
      }
    }
    assert id - 1 == EntryOrFirst(recs, Named(filename), ent);
    result := f.DeleteRecord(id);
    if remove {
      unlinked := [fname];
    }
  }

  ghost predicate SortedByTime(recs: seq<FileHeader>) {
    forall i, j :: 0 <= i < j < |recs| ==> recs[i].filetime <= recs[j].filetime
  }

  ghost predicate UniqueKeys(recs: seq<FileHeader>) {
    forall i, j :: 0 <= i < j < |recs| ==> !SameKey(recs[i], recs[j])
  }

  /** The file with every record of the same key replaced. */
  function Substituted(recs: seq<FileHeader>, fhdr: FileHeader): seq<FileHeader> {
    seq(|recs|, i requires 0 <= i < |recs| => if SameKey(recs[i], fhdr) then fhdr else recs[i])
  }

  function Put<T>(recs: seq<T>, i: nat, r: T): seq<T> {
    if i < |recs| then recs[i := r] else recs
  }

  /** Where the linear mode puts the record: the last match up to `ent`, or the first after it. */
  function LinearTarget(recs: seq<FileHeader>, fhdr: FileHeader, ent: nat): nat
    requires 0 < ent <= |recs|
  {
    var last := LastWhere(recs, Matches(fhdr), ent);
    if last >= 0 then last else FirstWhere(recs, Matches(fhdr), ent)
  }

  /** At most records of the key of `fhdr` have been replaced, by `fhdr`. */
  ghost predicate OnlyReplaces(was: seq<FileHeader>, now: seq<FileHeader>, fhdr: FileHeader) {
    |now| == |was| && forall i :: 0 <= i < |was| ==> now[i] == was[i] || (SameKey(was[i], fhdr) && now[i] == fhdr)
  }

  /** The least record no earlier than `filetime`, if the file is sorted. */
  method LowerBound(buf: array<FileHeader>, records: nat, filetime: int) returns (low: nat)
    requires records <= buf.Length
    ensures low <= records
    ensures SortedByTime(buf[..records]) ==> forall i :: 0 <= i < low ==> buf[i].filetime < filetime
    ensures SortedByTime(buf[..records]) ==> forall i :: low <= i < records ==> buf[i].filetime >= filetime
  {
    ghost var recs := buf[..records];
    low := 0;
    var high := records;
    while low < high
      invariant low <= high <= records
      invariant SortedByTime(recs) ==> forall i :: 0 <= i < low ==> recs[i].filetime < filetime
      invariant SortedByTime(recs) ==> forall i :: high <= i < records ==> recs[i].filetime >= filetime
    {
      var i := (high + low) / 2;
      assert buf[i] == recs[i];
      if filetime <= buf[i].filetime {
        high := i;
      } else {
        low := i + 1;
      }
    }
  }

  /** Replaces a record by binary search. On a sorted file that is the record sought; on any file nothing else is
      touched. The result tells a match from none only if some record is later than the one sought. */
  method SubstituteSorted(buf: array<FileHeader>, records: nat, fhdr: FileHeader, ent: nat) returns (result: int)
    requires 0 < ent <= records <= buf.Length
    modifies buf
    ensures OnlyReplaces(old(buf[..records]), buf[..records], fhdr) && (result == 0 || result == -1)
    ensures SortedByTime(old(buf[..records])) ==>
      buf[..records] == Put(old(buf[..records]), EntryOrFirst(old(buf[..records]), Matches(fhdr), ent), fhdr)
    ensures SortedByTime(old(buf[..records])) ==>
      (result == -1 <==> EntryOrFirst(old(buf[..records]), Matches(fhdr), ent) == records &&
                         exists i :: 0 <= i < records && old(buf[..records])[i].filetime > fhdr.filetime)
  {
    ghost var recs := buf[..records];
    result := 0;
    if SameKey(buf[ent-1], fhdr) {
      buf[ent-1] := fhdr;
      assert buf[..records] == recs[ent-1 := fhdr];
      return;
    }
    var low := LowerBound(buf, records, fhdr.filetime);
    var i := low;
    while i < records
      invariant low <= i <= records && buf[..records] == recs && result == 0
      invariant SortedByTime(recs) ==> forall j :: 0 <= j < i ==> !SameKey(recs[j], fhdr)
      invariant forall j :: low <= j < i ==> recs[j].filetime == fhdr.filetime
    {
      assert buf[i] == recs[i];
      if buf[i].filetime != fhdr.filetime {
        assert SortedByTime(recs) ==> forall j :: i <= j < records ==> recs[j].filetime >= recs[i].filetime;
        return -1;
      }
      if buf[i].filename == fhdr.filename {
        buf[i] := fhdr;
        assert buf[..records] == recs[i := fhdr];
        return;
      }
      i := i + 1;
    }
  }

  method SubstituteLinear(buf: array<FileHeader>, records: nat, fhdr: FileHeader, ent: nat)
    requires 0 < ent <= records <= buf.Length
    modifies buf
    ensures buf[..records] == Put(old(buf[..records]), LinearTarget(old(buf[..records]), fhdr, ent), fhdr)
  {
    ghost var recs := buf[..records];
    var i := ent - 1;
    while i >= 0
      invariant -1 <= i < ent && buf[..records] == recs
      invariant forall j :: i < j < ent ==> !SameKey(recs[j], fhdr)
    {
      assert buf[i] == recs[i];
      if SameKey(buf[i], fhdr) {
        buf[i] := fhdr;
        assert buf[..records] == recs[i := fhdr];
        return;
      }
      i := i - 1;
    }
    i := ent;
    while i < records
      invariant ent <= i <= records && buf[..records] == recs
      invariant forall j :: 0 <= j < i ==> !SameKey(recs[j], fhdr)
    {
      assert buf[i] == recs[i];
      if SameKey(buf[i], fhdr) {
        buf[i] := fhdr;
        assert buf[..records] == recs[i := fhdr];
        return;
      }
      i := i + 1;
    }
  }

  method SafeSubstituteRecord(f: RecordFile<FileHeader>, fhdr: FileHeader, ent: nat, sorted: bool) returns (result: int)
    requires f.Valid() && ent >= 1
    modifies f.buf
    ensures f.Valid() && f.n == old(f.n)
    ensures f.n == 0 ==> result == -1 && f.Contents() == old(f.Contents())
    ensures OnlyReplaces(old(f.Contents()), f.Contents(), fhdr)
    ensures f.n > 0 && sorted && SortedByTime(old(f.Contents())) ==>
      var i := EntryOrFirst(old(f.Contents()), Matches(fhdr), if ent < f.n then ent else f.n);
      && f.Contents() == Put(old(f.Contents()), i, fhdr)
      && (result == -1 <==> i == f.n && exists j :: 0 <= j < f.n && old(f.Contents())[j].filetime > fhdr.filetime)
    ensures f.n > 0 && sorted ==> result == 0 || result == -1
    ensures f.n > 0 && !sorted ==>
      var i := LinearTarget(old(f.Contents()), fhdr, if ent < f.n then ent else f.n);
      result == 0 && f.Contents() == Put(old(f.Contents()), i, fhdr)
  {
    if f.n == 0 {
      return -1;
    }
    var entry := ent;
    if entry >= f.n {
      entry := f.n;
    }
    if sorted {
      result := SubstituteSorted(f.buf, f.n, fhdr, entry);
    } else {
      SubstituteLinear(f.buf, f.n, fhdr, entry);
      result := 0;
    }
  }

  /** On a sorted file with unique keys both modes replace exactly the record of the same key, if there is one, and
      leave the file sorted. */
  lemma ModesAgree(recs: seq<FileHeader>, fhdr: FileHeader, ent: nat)
    requires 0 < ent <= |recs| && SortedByTime(recs) && UniqueKeys(recs)
    ensures Put(recs, EntryOrFirst(recs, Matches(fhdr), ent), fhdr) == Substituted(recs, fhdr)
    ensures Put(recs, LinearTarget(recs, fhdr, ent), fhdr) == Substituted(recs, fhdr)
    ensures SortedByTime(Substituted(recs, fhdr)) && UniqueKeys(Substituted(recs, fhdr))
  {
    TargetSubstitutes(recs, fhdr, EntryOrFirst(recs, Matches(fhdr), ent));
    TargetSubstitutes(recs, fhdr, LinearTarget(recs, fhdr, ent));
  }

  lemma TargetSubstitutes(recs: seq<FileHeader>, fhdr: FileHeader, i: nat)
    requires UniqueKeys(recs) && i <= |recs|
    requires if i < |recs| then SameKey(recs[i], fhdr) else forall j :: 0 <= j < |recs| ==> !SameKey(recs[j], fhdr)
    ensures Put(recs, i, fhdr) == Substituted(recs, fhdr)
  {
    forall j | 0 <= j < |recs|
      ensures Put(recs, i, fhdr)[j] == Substituted(recs, fhdr)[j]
    {
      if i < |recs| && j != i {
        assert !SameKey(recs[j], recs[i]) && !SameKey(recs[i], recs[j]);
      }
    }
  }

  /** The entry given bears the key, or at most one record before it does. */
  ghost predicate OneCandidate(recs: seq<FileHeader>, fhdr: FileHeader, ent: nat)
    requires 0 < ent <= |recs|
  {
    SameKey(recs[ent-1], fhdr) ||
    !(exists i, j :: 0 <= i < j < ent && SameKey(recs[i], fhdr) && SameKey(recs[j], fhdr))
  }

  /** Exactly when the modes choose the same record. */
  lemma SameTarget(recs: seq<FileHeader>, fhdr: FileHeader, ent: nat)
    requires 0 < ent <= |recs|
    ensures EntryOrFirst(recs, Matches(fhdr), ent) == LinearTarget(recs, fhdr, ent) <==> OneCandidate(recs, fhdr, ent)
  {
    var m := Matches(fhdr);
    var first, last := FirstWhere(recs, m, 0), LastWhere(recs, m, ent);
    if !m(recs[ent-1]) {
      if first < last {
        assert SameKey(recs[first], fhdr) && SameKey(recs[last], fhdr);
        assert !OneCandidate(recs, fhdr, ent);
      }
    }
  }

  /** The modes leave the same file exactly when they choose the same record, or both records they choose are already
      what is put there. */
  lemma ModesAgreeExactly(recs: seq<FileHeader>, fhdr: FileHeader, ent: nat)
    requires 0 < ent <= |recs|
    ensures var sorted, linear := EntryOrFirst(recs, Matches(fhdr), ent), LinearTarget(recs, fhdr, ent);
      Put(recs, sorted, fhdr) == Put(recs, linear, fhdr) <==>
      OneCandidate(recs, fhdr, ent) ||
      (sorted < |recs| && linear < |recs| && recs[sorted] == fhdr && recs[linear] == fhdr)
  {
    hide OneCandidate;
    SameTarget(recs, fhdr, ent);
    var i, j := EntryOrFirst(recs, Matches(fhdr), ent), LinearTarget(recs, fhdr, ent);
    if i != j {
      BothFound(recs, fhdr, ent);
      assert Put(recs, i, fhdr)[i] == fhdr && Put(recs, j, fhdr)[i] == recs[i];
      assert Put(recs, j, fhdr)[j] == fhdr && Put(recs, i, fhdr)[j] == recs[j];
      if recs[i] == fhdr && recs[j] == fhdr {
        assert Put(recs, i, fhdr) == recs == Put(recs, j, fhdr);
      }
    }
  }

  /** Targets that differ are both records of the file. */
  lemma BothFound(recs: seq<FileHeader>, fhdr: FileHeader, ent: nat)
    requires 0 < ent <= |recs| && EntryOrFirst(recs, Matches(fhdr), ent) != LinearTarget(recs, fhdr, ent)
    ensures EntryOrFirst(recs, Matches(fhdr), ent) < |recs| && LinearTarget(recs, fhdr, ent) < |recs|
  {
    var m := Matches(fhdr);
    var first, last := FirstWhere(recs, m, 0), LastWhere(recs, m, ent);
    if first < |recs| {
      assert m(recs[first]);
    }
  }

  /** A sorted file on which they part: two records of the key before an entry without it. */
  lemma RepeatedKeysDiffer(a: FileHeader, b: FileHeader, c: FileHeader, fhdr: FileHeader)
    requires SortedByTime([a, b, c])
    requires SameKey(a, fhdr) && SameKey(b, fhdr) && !SameKey(c, fhdr) && a != fhdr
    ensures Put([a, b, c], EntryOrFirst([a, b, c], Matches(fhdr), 3), fhdr)
         != Put([a, b, c], LinearTarget([a, b, c], fhdr, 3), fhdr)
  {
    hide FirstWhere, LastWhere;
    var recs, m := [a, b, c], Matches(fhdr);
    assert SameKey(recs[0], fhdr) && SameKey(recs[1], fhdr);
    ModesAgreeExactly(recs, fhdr, 3);
    assert m(recs[0]);
  }
}
