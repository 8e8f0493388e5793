/**
 Removing a piece from a list in place. The loop ranges over the list as it was, while each
 match moves the last element down and shortens the list by one.
 */
module SwapRemove {
  import opened Basics

  /** OutOfRange: a match was found at an index the shortened list no longer has, which stops the program. */
  datatype Outcome<T> = Kept(list: seq<T>) | OutOfRange

  /** The loop from index i on, when the backing array holds a and the list has length len. */
  function From<T(==)>(a: seq<T>, p: T, i: nat, len: nat): Outcome<T>
    requires len <= |a| && i <= |a|
    decreases |a| - i
  {
    if i == |a| then Kept(a[..len])
    else if a[i] != p then From(a, p, i + 1, len)
    else if i >= len then OutOfRange
    else From(a[i := a[len - 1]], p, i + 1, len - 1)
  }

  function All<T(==)>(l: seq<T>, p: T): Outcome<T> {
    From(l, p, 0, |l|)
  }

  ghost function Count<T>(l: seq<T>, p: T): (c: nat)
    ensures c <= |l|
  {
    multiset(l)[p]
  }

  /** No copy of p among the last slots that earlier matches will have cut off. */
  ghost predicate Safe<T>(a: seq<T>, p: T, i: nat, len: nat)
    requires len <= |a| && i <= |a|
  {
    Count(a[i..], p) == 0 || forall j :: i <= j < |a| && len - Count(a[i..], p) < j ==> a[j] != p
  }

  lemma CountStep<T>(a: seq<T>, p: T, i: nat)
    requires i < |a|
    ensures Count(a[i..], p) == Count(a[i + 1..], p) + (if a[i] == p then 1 else 0)
  {
    assert a[i..] == [a[i]] + a[i + 1..];
  }

  lemma CountZero<T>(a: seq<T>, p: T)
    ensures Count(a, p) == 0 <==> p !in a
  {
    assert p in a <==> p in multiset(a);
  }

  lemma {:induction false} FromKept<T>(a: seq<T>, p: T, i: nat, len: nat)
    requires len <= |a| && i <= |a|
    ensures From(a, p, i, len).Kept? <==> Safe(a, p, i, len)
    decreases |a| - i
  {
    if i < |a| {
      CountStep(a, p, i);
      if a[i] != p {
        FromKept(a, p, i + 1, len);
      } else if i < len {
        var b := a[i := a[len - 1]];
        assert b[i + 1..] == a[i + 1..];
        FromKept(b, p, i + 1, len - 1);
        SafeStep(a, p, i, len);
      }
    }
  }

  lemma SafeStep<T>(a: seq<T>, p: T, i: nat, len: nat)
    requires i < len <= |a| && a[i] == p
    ensures Safe(a, p, i, len) <==> Safe(a[i := a[len - 1]], p, i + 1, len - 1)
  {
    var b := a[i := a[len - 1]];
    assert b[i + 1..] == a[i + 1..];
    CountStep(a, p, i);
    var c := Count(a[i + 1..], p);
    CountZero(a[i + 1..], p);
    if c == 0 {
      forall j | i <= j < |a| && len - 1 < j ensures a[j] != p {
        assert a[j] == a[i + 1..][j - i - 1];
      }
    } else if Safe(b, p, i + 1, len - 1) {
      var k :| 0 <= k < |a[i + 1..]| && a[i + 1..][k] == p;
      assert b[i + 1 + k] == p;
      forall j | i <= j < |a| && len - (c + 1) < j ensures a[j] != p {
        assert b[j] == a[j];
      }
    } else {
      var j :| i + 1 <= j < |b| && len - 1 - c < j && b[j] == p;
      assert a[j] == p;
    }
  }

  lemma DropLast<T>(s: seq<T>)
    requires s != []
    ensures multiset(s) == multiset(s[..|s| - 1]) + multiset{s[|s| - 1]}
  {
    assert s == s[..|s| - 1] + [s[|s| - 1]];
  }

  lemma SwapStep<T>(a: seq<T>, i: nat, len: nat)
    requires i < len <= |a|
    ensures multiset(a[..len]) == multiset(a[i := a[len - 1]][..len - 1]) + multiset{a[i]}
  {
    var b := a[i := a[len - 1]];
    DropLast(a[..len]);
    assert a[..len][..len - 1] == a[..len - 1];
    if i < len - 1 {
      assert b[..len - 1] == a[..len - 1][i := a[len - 1]];
    } else {
      assert b[..len - 1] == a[..len - 1];
    }
  }

  lemma {:induction false} FromContents<T>(a: seq<T>, p: T, i: nat, len: nat)
    requires len <= |a| && i <= |a|
    requires From(a, p, i, len).Kept?
    ensures multiset(From(a, p, i, len).list)[p] + Count(a[i..], p) == multiset(a[..len])[p]
    ensures forall x :: x != p ==> multiset(From(a, p, i, len).list)[x] == multiset(a[..len])[x]
    decreases |a| - i
  {
    if i < |a| {
      CountStep(a, p, i);
      if a[i] != p {
        FromContents(a, p, i + 1, len);
      } else {
        var b := a[i := a[len - 1]];
        FromContents(b, p, i + 1, len - 1);
        assert b[i + 1..] == a[i + 1..];
        SwapStep(a, i, len);
      }
    }
  }

  /** The loop stays in range exactly when, with c copies of p in the list, none is among the last c - 1. */
  lemma InRangeExactly<T>(l: seq<T>, p: T)
    ensures All(l, p).Kept? <==> Count(l, p) == 0 || p !in l[|l| - Count(l, p) + 1..]
  {
    FromKept(l, p, 0, |l|);
    assert l[0..] == l;
    var c := Count(l, p);
    if c > 0 {
      var tail := l[|l| - c + 1..];
      assert p in tail ==> exists k :: 0 <= k < |tail| && tail[k] == p;
      assert forall k :: 0 <= k < |tail| ==> tail[k] == l[|l| - c + 1 + k];
      assert forall j :: |l| - c < j < |l| ==> l[j] == tail[j - (|l| - c + 1)];
    }
  }

  /** When it stays in range it removes every copy of p and keeps every other element, with its multiplicity. */
  lemma RemovesExactly<T>(l: seq<T>, p: T)
    requires All(l, p).Kept?
    ensures forall x :: multiset(All(l, p).list)[x] == if x == p then 0 else multiset(l)[x]
  {
    FromContents(l, p, 0, |l|);
    assert l[0..] == l && l[..|l|] == l;
  }

  /** Two copies of the piece are enough to run out of range. */
  lemma DuplicateCanFail<T>(p: T)
    ensures All([p, p], p).OutOfRange?
  {
    assert [p, p][0 := p] == [p, p];
    assert From([p, p], p, 1, 1).OutOfRange?;
  }

  lemma NoDupCounts<T>(l: seq<T>)
    ensures NoDup(l) <==> forall x :: multiset(l)[x] <= 1
  {
    if l != [] {
      var t := l[1..];
      assert l == [l[0]] + t;
      NoDupCounts(t);
      if NoDup(l) {
        assert NoDup(t) by {
          forall i, j | 0 <= i < j < |t| ensures t[i] != t[j] { assert l[i + 1] != l[j + 1]; }
        }
        assert l[0] !in t;
        assert l[0] !in multiset(t);
      } else {
        var i, j :| 0 <= i < j < |l| && l[i] == l[j];
        if i == 0 {
          assert t[j - 1] == l[0];
          assert l[0] in multiset(t);
          assert multiset(l)[l[0]] > 1;
        } else {
          assert t[i - 1] == t[j - 1];
          var x :| multiset(t)[x] > 1;
          assert multiset(l)[x] > 1;
        }
      }
    }
  }

  /** On a list without duplicates the loop is safe, removes exactly p, and leaves no duplicates. */
  lemma NoDupList<T>(l: seq<T>, p: T)
    requires NoDup(l)
    ensures All(l, p).Kept?
    ensures NoDup(All(l, p).list)
    ensures forall x :: x in All(l, p).list <==> x in l && x != p
  {
    NoDupCounts(l);
    InRangeExactly(l, p);
    RemovesExactly(l, p);
    NoDupCounts(All(l, p).list);
    forall x ensures x in All(l, p).list <==> x in l && x != p {
      assert x in All(l, p).list <==> x in multiset(All(l, p).list);
      assert x in l <==> x in multiset(l);
    }
  }

  /** The loop itself, on the list's backing array. */
  method Remove<T(==)>(a: array<T>, p: T) returns (len: nat, inRange: bool)
    modifies a
    ensures inRange <==> All(old(a[..]), p).Kept?
    ensures inRange ==> len <= a.Length && a[..len] == All(old(a[..]), p).list
  {
    ghost var was := a[..];
    len := a.Length;
    var i := 0;
    while i < a.Length
      invariant 0 <= i <= a.Length && len <= a.Length
      invariant From(a[..], p, i, len) == All(was, p)
    {
      if a[i] == p {
        if i >= len {
          return len, false;
        }
        ghost var before := a[..];
        a[i] := a[len - 1];
        assert a[..] == before[i := before[len - 1]];
        len := len - 1;
      }
      i := i + 1;
    }
    inRange := true;
  }
}
