/**
 * Small sequence helpers shared by the whole model: optional values, results,
 * `Array.prototype.find`/`findIndex`, and `[...new Set(xs)]`.
 */
module Utils {

  datatype Option<+T> = None | Some(value: T)

  datatype Result<+T, +E> = Ok(value: T) | Err(error: E)

  function Min(a: int, b: int): int { if a <= b then a else b }

  /** No element occurs twice. */
  predicate NoDup<T(==)>(s: seq<T>) {
    forall i, j | 0 <= i < j < |s| :: s[i] != s[j]
  }

  /** `findIndex`: the index of the first element satisfying `p`, if any. */
  function FindIndex<T>(s: seq<T>, p: T -> bool): (k: Option<nat>)
    ensures k.Some? ==> k.value < |s| && p(s[k.value])
    ensures k.Some? ==> forall j | 0 <= j < k.value :: !p(s[j])
    ensures k.None? ==> forall j | 0 <= j < |s| :: !p(s[j])
  {
    if s == [] then None
    else if p(s[0]) then Some(0)
    else match FindIndex(s[1..], p)
      case None => None
      case Some(k) => Some(k + 1)
  }

  /** The position of the first occurrence of `x` in `s`. */
  function IndexOf<T(==)>(s: seq<T>, x: T): (k: nat)
    requires x in s
    ensures k < |s| && s[k] == x && x !in s[..k]
  {
    if s[0] == x then 0
    else
      var k := IndexOf(s[1..], x);
      assert s[..k + 1] == [s[0]] + s[1..][..k];
      k + 1
  }

  lemma {:induction false} IndexOfExtend<T>(s: seq<T>, y: T, x: T)
    requires x in s
    ensures IndexOf(s + [y], x) == IndexOf(s, x)
  {
    if s[0] != x {
      assert (s + [y])[1..] == s[1..] + [y];
      IndexOfExtend(s[1..], y, x);
    }
  }

  /**
   * `[...new Set(s)]`: every element once, at the place of its first
   * occurrence. Written as "keep the last element unless it occurred before".
   */
  function Dedup<T(==)>(s: seq<T>): (r: seq<T>)
    ensures NoDup(r)
    ensures forall i | 0 <= i < |r| :: r[i] in s
    ensures forall i | 0 <= i < |s| :: s[i] in r
    ensures |r| <= |s|
  {
    if s == [] then []
    else
      var init := s[..|s| - 1];
      var p := Dedup(init);
      assert forall i | 0 <= i < |s| - 1 :: s[i] == init[i];
      if s[|s| - 1] in init then p else p + [s[|s| - 1]]
  }

  /** Dedup keeps the first-occurrence order of the input. */
  lemma {:induction false} DedupFirstOccurrenceOrder<T>(s: seq<T>, i: nat, j: nat)
    requires i < j < |Dedup(s)|
    ensures Dedup(s)[i] in s && Dedup(s)[j] in s
    ensures IndexOf(s, Dedup(s)[i]) < IndexOf(s, Dedup(s)[j])
  {
    var n := |s|;
    var init := s[..n - 1];
    var last := s[n - 1];
    assert s == init + [last];
    var p := Dedup(init);
    var r := Dedup(s);
    if last in init {
      assert r == p;
      DedupFirstOccurrenceOrder(init, i, j);
      IndexOfExtend(init, last, p[i]);
      IndexOfExtend(init, last, p[j]);
    } else {
      assert r == p + [last];
      if j < |p| {
        DedupFirstOccurrenceOrder(init, i, j);
        IndexOfExtend(init, last, p[i]);
        IndexOfExtend(init, last, p[j]);
      } else {
        assert r[j] == last;
        assert r[i] == p[i] && p[i] in init;
        IndexOfExtend(init, last, p[i]);
        var k := IndexOf(s, last);
        assert s[..n - 1] == init;
        assert k == n - 1;
      }
    }
  }

  /** Dedup's order, for every pair of positions at once. */
  lemma DedupOrdered<T>(s: seq<T>)
    ensures forall i, j | 0 <= i < j < |Dedup(s)| :: IndexOf(s, Dedup(s)[i]) < IndexOf(s, Dedup(s)[j])
  {
    forall i, j | 0 <= i < j < |Dedup(s)|
      ensures IndexOf(s, Dedup(s)[i]) < IndexOf(s, Dedup(s)[j])
    {
      DedupFirstOccurrenceOrder(s, i, j);
    }
  }

  /** Deduplicating a sequence without repeats changes nothing. */
  lemma {:induction false} DedupOfDistinct<T>(s: seq<T>)
    requires NoDup(s)
    ensures Dedup(s) == s
  {
    if s != [] {
      var init := s[..|s| - 1];
      assert NoDup(init);
      DedupOfDistinct(init);
      assert s[|s| - 1] !in init;
      assert s == init + [s[|s| - 1]];
    }
  }
}
