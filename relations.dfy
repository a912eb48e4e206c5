/**
 * The toggle protocol shared by likes and subscriptions: look the (subject, target) record up,
 * delete it when it is there and create it otherwise. Record existence is the boolean state.
 */
module Relations {
  import opened Seqs

  /** Position of the first record equal to x: the document findOne returns. */
  function FirstIndex<T(==)>(s: seq<T>, x: T): (i: nat)
    requires x in s
    ensures i < |s| && s[i] == x
    ensures x !in s[..i]
  {
    if s[0] == x then 0 else 1 + FirstIndex(s[1..], x)
  }

  /** One toggle request: deleteOne on the record found, or create a new record at the end. */
  function Toggle<T(==)>(s: seq<T>, x: T): (r: seq<T>)
    ensures x in s ==> multiset(r) == multiset(s) - multiset{x}
    ensures x !in s ==> r == s + [x]
  {
    if x in s then
      var i := FirstIndex(s, x);
      assert s == s[..i] + [s[i]] + s[i + 1..];
      s[..i] + s[i + 1..]
    else s + [x]
  }

  lemma ToggleRemovesFirst<T>(s: seq<T>, x: T)
    requires x in s
    ensures Toggle(s, x) == s[..FirstIndex(s, x)] + s[FirstIndex(s, x) + 1..]
  {
  }

  /** On a duplicate-free store the toggle flips the existence of exactly that record. */
  lemma ToggleFlips<T>(s: seq<T>, x: T)
    requires NoDup(s)
    ensures x in Toggle(s, x) <==> x !in s
  {
    if x in s {
      var i := FirstIndex(s, x);
      assert forall j | 0 <= j < |s| && j != i :: s[j] != x;
      assert x !in s[..i] + s[i + 1..];
    }
  }

  /** A toggle never adds or removes any other record. */
  lemma ToggleKeepsOthers<T>(s: seq<T>, x: T, y: T)
    requires y != x
    ensures y in Toggle(s, x) <==> y in s
    ensures multiset(Toggle(s, x))[y] == multiset(s)[y]
  {
    assert y in Toggle(s, x) <==> multiset(Toggle(s, x))[y] > 0;
    assert y in s <==> multiset(s)[y] > 0;
  }

  /** The toggle keeps the store free of duplicate records: the uniqueness the source relies on. */
  lemma ToggleKeepsNoDup<T>(s: seq<T>, x: T)
    requires NoDup(s)
    ensures NoDup(Toggle(s, x))
  {
    if x in s {
      var i := FirstIndex(s, x);
      var r := s[..i] + s[i + 1..];
      forall a, b | 0 <= a < b < |r| ensures r[a] != r[b] {
        var a' := if a < i then a else a + 1;
        var b' := if b < i then b else b + 1;
        assert r[a] == s[a'] && r[b] == s[b'];
      }
    }
  }

  /** Toggling the same record twice restores the record set; from absence it restores the exact sequence. */
  lemma ToggleTwice<T>(s: seq<T>, x: T)
    requires NoDup(s)
    ensures multiset(Toggle(Toggle(s, x), x)) == multiset(s)
    ensures x !in s ==> Toggle(Toggle(s, x), x) == s
  {
    ToggleFlips(s, x);
    if x !in s {
      var t := s + [x];
      assert x in t;
      var i := FirstIndex(t, x);
      assert i == |s|;
      assert t[..i] == s;
    }
  }

  /** A toggle moves the size of any filtered view by one exactly when the record belongs to it. */
  lemma {:induction false} ToggleCount<T(!new)>(s: seq<T>, x: T, p: T -> bool)
    ensures |Filter(Toggle(s, x), p)| ==
            |Filter(s, p)| + (if !p(x) then 0 else if x in s then -1 else 1)
  {
    FilterSingleton(x, p);
    if x in s {
      var i := FirstIndex(s, x);
      ToggleRemovesFirst(s, x);
      FilterRemoveAt(s, i, p);
    } else {
      FilterConcat(s, [x], p);
    }
  }

  /** A toggle leaves every filtered view that the record does not belong to exactly as it was. */
  lemma {:induction false} ToggleKeepsOtherViews<T(!new)>(s: seq<T>, x: T, p: T -> bool)
    requires !p(x)
    ensures Filter(Toggle(s, x), p) == Filter(s, p)
  {
    FilterSingleton(x, p);
    if x in s {
      var i := FirstIndex(s, x);
      var a, b := s[..i], s[i + 1..];
      ToggleRemovesFirst(s, x);
      assert s == a + [x] + b;
      FilterThree(a, x, b, p);
      FilterConcat(a, b, p);
      assert Filter(a, p) + [] == Filter(a, p);
    } else {
      FilterConcat(s, [x], p);
      assert Filter(s, p) + [] == Filter(s, p);
    }
  }
}
