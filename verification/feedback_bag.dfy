/** The score manager's per-level phrase bag: the phrase indices 0..9 not yet used
    in the current round, drawn without replacement and refilled to all ten as soon
    as a draw finds the bag empty. */
module FeedbackBag {

  /** Phrases, and so bag entries, per level. */
  const BagSize: nat := 10

  /** The refilled bag: the indices 0..9 in ascending order. */
  function FullBag(): (b: seq<nat>)
    ensures |b| == BagSize
    ensures forall i :: 0 <= i < |b| ==> b[i] == i
  {
    seq(BagSize, i requires 0 <= i => i)
  }

  predicate Distinct(s: seq<nat>)
  {
    forall i, j :: 0 <= i < j < |s| ==> s[i] != s[j]
  }

  /** No entry occurs again later: Distinct, stated one entry at a time. */
  predicate NoRepeats(s: seq<nat>)
    decreases |s|
  {
    |s| == 0 || (s[0] !in s[1..] && NoRepeats(s[1..]))
  }

  lemma {:induction false} NoRepeatsIsDistinct(s: seq<nat>)
    ensures NoRepeats(s) <==> Distinct(s)
    decreases |s|
  {
    if |s| > 0 {
      var t := s[1..];
      NoRepeatsIsDistinct(t);
      if NoRepeats(s) {
        forall i, j | 0 <= i < j < |s|
          ensures s[i] != s[j]
        {
          assert s[j] == t[j - 1];
          if i > 0 {
            assert s[i] == t[i - 1];
          }
        }
      }
      if Distinct(s) {
        assert Distinct(t) by {
          forall i, j | 0 <= i < j < |t|
            ensures t[i] != t[j]
          {
            assert t[i] == s[i + 1] && t[j] == s[j + 1];
          }
        }
        forall k | 0 <= k < |t|
          ensures t[k] != s[0]
        {
          assert t[k] == s[k + 1];
        }
      }
    }
  }

  /** What a level's bag may hold: distinct phrase indices. */
  predicate ValidBag(b: seq<nat>)
  {
    NoRepeats(b) && forall i :: 0 <= i < |b| ==> b[i] < BagSize
  }

  /** The bag a draw actually draws from: an empty bag is refilled first. */
  function Refill(b: seq<nat>): (r: seq<nat>)
    ensures |r| > 0
    ensures |b| == 0 ==> r == FullBag()
    ensures |b| > 0 ==> r == b
  {
    if |b| == 0 then FullBag() else b
  }

  lemma FullBagIsValid()
    ensures ValidBag(FullBag())
  {
    NoRepeatsIsDistinct(FullBag());
  }

  /** The drawn phrase index and the bag left behind. */
  datatype Drawn = Drawn(index: nat, bag: seq<nat>)

  /** The sequence without its element at position `i`. */
  function RemoveAt(s: seq<nat>, i: nat): (r: seq<nat>)
    requires i < |s|
    ensures |r| == |s| - 1
  {
    s[..i] + s[i + 1..]
  }

  lemma RemoveAtElements(s: seq<nat>, i: nat)
    requires i < |s|
    ensures forall k :: 0 <= k < |s| - 1 ==> RemoveAt(s, i)[k] == (if k < i then s[k] else s[k + 1])
  {
    assert RemoveAt(s, i) == s[..i] + s[i + 1..];
  }

  lemma RemoveAtMultiset(s: seq<nat>, i: nat)
    requires i < |s|
    ensures multiset(RemoveAt(s, i)) + multiset{s[i]} == multiset(s)
  {
    assert s == s[..i] + [s[i]] + s[i + 1..];
  }

  lemma RemoveAtKeepsValid(s: seq<nat>, i: nat)
    requires i < |s| && ValidBag(s)
    ensures ValidBag(RemoveAt(s, i)) && s[i] !in RemoveAt(s, i)
  {
    var r := RemoveAt(s, i);
    NoRepeatsIsDistinct(s);
    NoRepeatsIsDistinct(r);
    RemoveAtElements(s, i);
    forall a, b | 0 <= a < b < |r|
      ensures r[a] != r[b]
    {
      var a' := if a < i then a else a + 1;
      var b' := if b < i then b else b + 1;
      assert r[a] == s[a'] && r[b] == s[b'] && a' < b';
    }
    forall k | 0 <= k < |r|
      ensures r[k] != s[i]
    {
      var k' := if k < i then k else k + 1;
      assert r[k] == s[k'] && k' != i;
    }
  }

  /** One draw, the model of GetRandomPhrase's bag handling: `pick` is the caller-drawn
      position Random.Range(0, count) in the (refilled) bag. */
  function Draw(b: seq<nat>, pick: nat): (r: Drawn)
    requires pick < |Refill(b)|
    ensures r.index in Refill(b)
    ensures |r.bag| == |Refill(b)| - 1
    ensures multiset(r.bag) + multiset{r.index} == multiset(Refill(b))
    ensures ValidBag(b) ==> ValidBag(r.bag) && r.index < BagSize && r.index !in r.bag
  {
    var full := Refill(b);
    RemoveAtMultiset(full, pick);
    FullBagIsValid();
    if ValidBag(b) then
      RemoveAtKeepsValid(full, pick);
      Drawn(full[pick], RemoveAt(full, pick))
    else
      Drawn(full[pick], RemoveAt(full, pick))
  }

  /** Drawing with a pick list whose k-th pick fits the bag after k draws. */
  predicate PicksFit(b: seq<nat>, picks: seq<nat>)
  {
    |picks| <= |b| && forall k :: 0 <= k < |picks| ==> picks[k] < |b| - k
  }

  /** The indices drawn by consecutive draws that never find the bag empty, in order,
      and the bag left behind. */
  function DrawMany(b: seq<nat>, picks: seq<nat>): (r: (seq<nat>, seq<nat>))
    requires PicksFit(b, picks)
    ensures |r.0| == |picks| && |r.1| == |b| - |picks|
    decreases |picks|
  {
    if |picks| == 0 then ([], b)
    else
      var d := Draw(b, picks[0]);
      var more := DrawMany(d.bag, picks[1..]);
      ([d.index] + more.0, more.1)
  }

  /** Consecutive draws partition the bag: what was drawn plus what is left is
      exactly what was there. */
  lemma {:induction false} DrawManyPartitions(b: seq<nat>, picks: seq<nat>)
    requires PicksFit(b, picks)
    ensures multiset(DrawMany(b, picks).0) + multiset(DrawMany(b, picks).1) == multiset(b)
    decreases |picks|
  {
    if |picks| > 0 {
      var d := Draw(b, picks[0]);
      var more := DrawMany(d.bag, picks[1..]);
      DrawManyPartitions(d.bag, picks[1..]);
      assert DrawMany(b, picks).0 == [d.index] + more.0;
      assert multiset([d.index] + more.0) == multiset{d.index} + multiset(more.0);
    }
  }

  /** Consecutive draws from a bag without duplicates return distinct indices and
      leave a bag without duplicates. */
  lemma {:induction false} DrawManyDistinct(b: seq<nat>, picks: seq<nat>)
    requires PicksFit(b, picks) && ValidBag(b)
    ensures Distinct(DrawMany(b, picks).0) && ValidBag(DrawMany(b, picks).1)
    decreases |picks|
  {
    if |picks| > 0 {
      var d := Draw(b, picks[0]);
      var more := DrawMany(d.bag, picks[1..]);
      DrawManyDistinct(d.bag, picks[1..]);
      DrawnFromBag(d.bag, picks[1..]);
      NoRepeatsIsDistinct(b);
      assert DrawMany(b, picks).0 == [d.index] + more.0;
      ConsDistinct(d.index, more.0);
    }
  }

  /** Every index drawn was in the bag. */
  lemma {:induction false} DrawnFromBag(b: seq<nat>, picks: seq<nat>)
    requires PicksFit(b, picks)
    ensures forall x :: x in DrawMany(b, picks).0 ==> x in b
    decreases |picks|
  {
    if |picks| > 0 {
      var d := Draw(b, picks[0]);
      DrawnFromBag(d.bag, picks[1..]);
      forall x | x in d.bag
        ensures x in b
      {
        assert x in multiset(d.bag);
      }
    }
  }

  lemma ConsDistinct(x: nat, s: seq<nat>)
    requires Distinct(s) && x !in s
    ensures Distinct([x] + s)
  {
    var t := [x] + s;
    forall i, j | 0 <= i < j < |t|
      ensures t[i] != t[j]
    {
      assert t[j] == s[j - 1];
      if i > 0 {
        assert t[i] == s[i - 1];
      }
    }
  }

  /** Ten draws from a full bag, with no refill in between, return each of the
      phrase indices 0..9 exactly once. */
  lemma TenDrawsCoverEveryPhrase(picks: seq<nat>)
    requires |picks| == BagSize
    requires forall k :: 0 <= k < BagSize ==> picks[k] < BagSize - k
    ensures Distinct(DrawMany(FullBag(), picks).0)
    ensures forall x :: x in DrawMany(FullBag(), picks).0 ==> x < BagSize
    ensures forall x: nat :: x < BagSize ==> x in DrawMany(FullBag(), picks).0
    ensures DrawMany(FullBag(), picks).1 == []
  {
    var full := FullBag();
    FullBagIsValid();
    DrawManyDistinct(full, picks);
    DrawnFromBag(full, picks);
    DrawingEverythingEmptiesBag(full, picks);
    var drawn := DrawMany(full, picks).0;
    forall x | x in drawn
      ensures x < BagSize
    {
      InFullBag(x);
    }
    forall x: nat | x < BagSize
      ensures x in drawn
    {
      InFullBag(x);
    }
  }

  /** Drawing as many times as the bag holds draws every entry of it. */
  lemma DrawingEverythingEmptiesBag(b: seq<nat>, picks: seq<nat>)
    requires PicksFit(b, picks) && |picks| == |b|
    ensures DrawMany(b, picks).1 == []
    ensures forall x :: x in b ==> x in DrawMany(b, picks).0
  {
    var r := DrawMany(b, picks);
    DrawManyPartitions(b, picks);
    assert r.1 == [];
    assert multiset(r.0) == multiset(b);
    forall x | x in b
      ensures x in r.0
    {
      assert x in multiset(b);
    }
  }

  lemma InFullBag(x: nat)
    ensures x in FullBag() <==> x < BagSize
  {
    if x < BagSize {
      assert FullBag()[x] == x;
    }
  }
}
