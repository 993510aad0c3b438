/** The three Ruby collection operations the license lookup relies on:
    Enumerable#find / Array#first (FirstIndex), Array#compact (Compact) and
    Array#uniq (Dedup), each with the property that characterises it. */
module Seqs {
  import opened Wrappers

  ghost predicate NoDuplicates<T>(s: seq<T>) {
    forall i, j :: 0 <= i < j < |s| ==> s[i] != s[j]
  }

  /** Index of the first element satisfying p, or None when none does. */
  function FirstIndex<T>(s: seq<T>, p: T -> bool): (r: Option<nat>)
    ensures r.Some? ==> r.value < |s| && p(s[r.value])
    ensures r.Some? ==> forall j :: 0 <= j < r.value ==> !p(s[j])
    ensures r.None? <==> forall j :: 0 <= j < |s| ==> !p(s[j])
  {
    if |s| == 0 then None
    else if p(s[0]) then Some(0)
    else
      match FirstIndex(s[1..], p)
      case None => None
      case Some(k) => Some(k + 1)
  }

  /** Drops every None and keeps the order of the rest. */
  function Compact<T>(s: seq<Option<T>>): (r: seq<T>)
    ensures |r| <= |s|
    ensures forall i :: 0 <= i < |r| ==> Some(r[i]) in s
    ensures forall i :: 0 <= i < |s| && s[i].Some? ==> s[i].value in r
  {
    if |s| == 0 then []
    else
      var rest := Compact(s[1..]);
      if s[0].Some? then [s[0].value] + rest else rest
  }

  /** The elements satisfying p, in order. */
  function Filter<T>(s: seq<T>, p: T -> bool): (r: seq<T>)
    ensures |r| <= |s|
    ensures forall i :: 0 <= i < |r| ==> r[i] in s && p(r[i])
    ensures forall i :: 0 <= i < |s| && p(s[i]) ==> s[i] in r
  {
    if |s| == 0 then []
    else
      var rest := Filter(s[1..], p);
      assert forall i :: 1 <= i < |s| ==> s[i] == s[1..][i - 1];
      if p(s[0]) then [s[0]] + rest else rest
  }

  /** compact works element by element: compacting a concatenation is
      compacting each part, so the kept values stay in order, repetitions
      included. */
  lemma {:induction false} CompactAppend<T>(a: seq<Option<T>>, b: seq<Option<T>>)
    ensures Compact(a + b) == Compact(a) + Compact(b)
  {
    if |a| > 0 {
      assert (a + b)[0] == a[0];
      assert (a + b)[1..] == a[1..] + b;
      CompactAppend(a[1..], b);
    } else {
      assert a + b == b;
    }
  }

  /** Filtering a concatenation is filtering each part: the kept elements
      stay in order, repetitions included. */
  lemma {:induction false} FilterAppend<T>(a: seq<T>, b: seq<T>, p: T -> bool)
    ensures Filter(a + b, p) == Filter(a, p) + Filter(b, p)
  {
    if |a| > 0 {
      assert (a + b)[0] == a[0];
      assert (a + b)[1..] == a[1..] + b;
      FilterAppend(a[1..], b, p);
    } else {
      assert a + b == b;
    }
  }

  /** Keeps the first occurrence of every element, in order. */
  function Dedup<T(==)>(s: seq<T>): (r: seq<T>)
    ensures NoDuplicates(r)
    ensures forall i :: 0 <= i < |r| ==> r[i] in s
    ensures forall i :: 0 <= i < |s| ==> s[i] in r
    ensures |r| <= |s|
  {
    if |s| == 0 then []
    else
      var init := s[..|s| - 1];
      var r := Dedup(init);
      assert s == init + [s[|s| - 1]];
      if s[|s| - 1] in r then r else r + [s[|s| - 1]]
  }

  /** Position of the first occurrence of x in s. */
  function FirstPos<T(==)>(s: seq<T>, x: T): (k: nat)
    requires x in s
    ensures k < |s| && s[k] == x
    ensures forall j :: 0 <= j < k ==> s[j] != x
  {
    if s[0] == x then 0 else 1 + FirstPos(s[1..], x)
  }

  lemma {:induction false} FirstPosOfPrefix<T>(s: seq<T>, t: seq<T>, x: T)
    requires x in s
    ensures x in s + t && FirstPos(s + t, x) == FirstPos(s, x)
  {
    var k := FirstPos(s, x);
    assert (s + t)[k] == x;
    assert forall j :: 0 <= j < k ==> (s + t)[j] == s[j];
  }

  /** Every element of r occurs in s, and r lists them by increasing first position in s. */
  ghost predicate InFirstOccurrenceOrder<T>(s: seq<T>, r: seq<T>) {
    (forall i :: 0 <= i < |r| ==> r[i] in s) &&
    forall i, j :: 0 <= i < j < |r| ==> FirstPos(s, r[i]) < FirstPos(s, r[j])
  }

  lemma ExtendOrder<T>(init: seq<T>, last: T, r: seq<T>)
    requires InFirstOccurrenceOrder(init, r)
    ensures InFirstOccurrenceOrder(init + [last], r)
    ensures last !in init ==> InFirstOccurrenceOrder(init + [last], r + [last])
  {
    var s := init + [last];
    forall i | 0 <= i < |r| ensures FirstPos(s, r[i]) == FirstPos(init, r[i]) {
      FirstPosOfPrefix(init, [last], r[i]);
    }
    if last !in init {
      assert s[|init|] == last;
      assert FirstPos(s, last) == |init|;
    }
  }

  /** Dedup lists its elements in the order of their first occurrence in s. */
  lemma {:induction false} DedupKeepsFirstOccurrenceOrder<T>(s: seq<T>)
    ensures InFirstOccurrenceOrder(s, Dedup(s))
  {
    if |s| > 0 {
      var init := s[..|s| - 1];
      var last := s[|s| - 1];
      assert s == init + [last];
      DedupKeepsFirstOccurrenceOrder(init);
      ExtendOrder(init, last, Dedup(init));
    }
  }

  /** The first element of a non-empty sequence stays first. */
  lemma {:induction false} DedupHead<T>(s: seq<T>)
    requires |s| > 0
    ensures |Dedup(s)| > 0 && Dedup(s)[0] == s[0]
  {
    assert s[0] in Dedup(s);
    DedupKeepsFirstOccurrenceOrder(s);
  }

  /** uniq on two elements: one when they are equal, both otherwise. */
  lemma DedupPair<T>(a: T, b: T)
    ensures Dedup([a, b]) == if a == b then [a] else [a, b]
  {
    assert [a, b][..1] == [a];
    assert [a][..0] == [];
  }
}
