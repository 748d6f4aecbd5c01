/**
 * `target_resize_widths` of src/image_processor.rs: the widths of the resized
 * variants generated for a raster image. The configured sizes, the layout
 * width and the display width are collected, sorted, deduplicated, clamped to
 * the original width, and whatever is not strictly smaller than the original
 * is dropped.
 */
module VariantPlan {

  predicate Sorted(s: seq<nat>)
  {
    forall i, j :: 0 <= i < j < |s| ==> s[i] <= s[j]
  }

  predicate StrictlyIncreasing(s: seq<nat>)
  {
    forall i, j :: 0 <= i < j < |s| ==> s[i] < s[j]
  }

  /** Inserts `x` into a sorted sequence. */
  function Insert(x: nat, s: seq<nat>): (r: seq<nat>)
    ensures |r| == |s| + 1
  {
    if s == [] then [x]
    else if x <= s[0] then [x] + s
    else [s[0]] + Insert(x, s[1..])
  }

  /** Inserting adds exactly `x`. */
  lemma {:induction false} InsertPermutes(x: nat, s: seq<nat>)
    ensures multiset(Insert(x, s)) == multiset(s) + multiset{x}
  {
    if s != [] && x > s[0] {
      assert s == [s[0]] + s[1..];
      InsertPermutes(x, s[1..]);
    }
  }

  /** Every element after inserting `x` is `x` or was already there. */
  lemma {:induction false} InsertFrom(x: nat, s: seq<nat>)
    ensures forall i :: 0 <= i < |Insert(x, s)| ==> Insert(x, s)[i] == x || Insert(x, s)[i] in s
  {
    if s != [] && x > s[0] {
      InsertFrom(x, s[1..]);
      var tail := Insert(x, s[1..]);
      assert forall i :: 0 <= i < |tail| ==> tail[i] == x || tail[i] in s;
    }
  }

  /** Inserting into a sorted sequence keeps it sorted. */
  lemma {:induction false} InsertSorted(x: nat, s: seq<nat>)
    requires Sorted(s)
    ensures Sorted(Insert(x, s))
  {
    if s != [] && x > s[0] {
      var tail := Insert(x, s[1..]);
      InsertSorted(x, s[1..]);
      InsertFrom(x, s[1..]);
      assert forall i :: 0 <= i < |tail| ==> s[0] <= tail[i];
    }
  }

  /** `sort_unstable` on integers: the sorted permutation. */
  function Sort(s: seq<nat>): (r: seq<nat>)
    ensures Sorted(r)
    ensures multiset(r) == multiset(s)
  {
    if s == [] then []
    else
      assert s == [s[0]] + s[1..];
      InsertSorted(s[0], Sort(s[1..]));
      InsertPermutes(s[0], Sort(s[1..]));
      Insert(s[0], Sort(s[1..]))
  }

  /** `Vec::dedup`: drops every element equal to the one before it. */
  function Dedup(s: seq<nat>): (r: seq<nat>)
    ensures forall x :: x in r <==> x in s
    ensures Sorted(s) ==> StrictlyIncreasing(r)
    ensures r != [] ==> s != [] && r[0] == s[0]
  {
    if |s| <= 1 then s
    else
      var rest := Dedup(s[1..]);
      if s[0] == s[1] then rest else [s[0]] + rest
  }

  function Min(a: nat, b: nat): nat { if a <= b then a else b }

  /**
   * The filtering loop as written: each size is clamped to the original width,
   * skipped when that is 0 or the original width itself, or when it equals the
   * width just kept.
   */
  function FilterWidths(sizes: seq<nat>, originalWidth: nat): seq<nat>
  {
    if sizes == [] then []
    else
      var widths := FilterWidths(sizes[..|sizes| - 1], originalWidth);
      var target := Min(sizes[|sizes| - 1], originalWidth);
      if target == 0 || target == originalWidth then widths
      else if widths != [] && widths[|widths| - 1] == target then widths
      else widths + [target]
  }

  /** The sizes strictly between 0 and the original width, in their order. */
  function Kept(sizes: seq<nat>, originalWidth: nat): (r: seq<nat>)
    ensures |r| <= |sizes|
  {
    if sizes == [] then []
    else
      var rest := Kept(sizes[..|sizes| - 1], originalWidth);
      var x := sizes[|sizes| - 1];
      if 0 < x < originalWidth then rest + [x] else rest
  }

  /** The kept sizes are exactly those strictly between 0 and the original width. */
  lemma {:induction false} KeptMembers(sizes: seq<nat>, originalWidth: nat)
    ensures forall x :: x in Kept(sizes, originalWidth) <==> x in sizes && 0 < x < originalWidth
  {
    if sizes != [] {
      var prefix := sizes[..|sizes| - 1];
      KeptMembers(prefix, originalWidth);
      assert sizes == prefix + [sizes[|sizes| - 1]];
    }
  }

  /** Keeping a sub-sequence of strictly increasing sizes keeps them strictly increasing. */
  lemma {:induction false} KeptIncreasing(sizes: seq<nat>, originalWidth: nat)
    requires StrictlyIncreasing(sizes)
    ensures StrictlyIncreasing(Kept(sizes, originalWidth))
  {
    if sizes != [] {
      var prefix := sizes[..|sizes| - 1];
      var x := sizes[|sizes| - 1];
      KeptIncreasing(prefix, originalWidth);
      KeptMembers(prefix, originalWidth);
      var rest := Kept(prefix, originalWidth);
      assert forall i :: 0 <= i < |rest| ==> rest[i] in prefix;
      assert forall i :: 0 <= i < |prefix| ==> prefix[i] < x;
    }
  }

  /**
   * On strictly increasing sizes the clamping and the duplicate test never
   * change a kept width: the loop keeps exactly the sizes strictly between 0
   * and the original width.
   */
  lemma {:induction false} FilterOfIncreasing(sizes: seq<nat>, originalWidth: nat)
    requires StrictlyIncreasing(sizes)
    ensures FilterWidths(sizes, originalWidth) == Kept(sizes, originalWidth)
  {
    if sizes != [] {
      var prefix := sizes[..|sizes| - 1];
      var x := sizes[|sizes| - 1];
      assert StrictlyIncreasing(prefix);
      FilterOfIncreasing(prefix, originalWidth);
      KeptMembers(prefix, originalWidth);
      var w := Kept(prefix, originalWidth);
      if w != [] {
        assert w[|w| - 1] in w;
        assert w[|w| - 1] in prefix;
      }
    }
  }

  /**
   * After sorting and deduplication the loop keeps exactly the candidates
   * strictly between 0 and the original width, in increasing order.
   */
  lemma PlanOfCandidates(all: seq<nat>, originalWidth: nat)
    ensures StrictlyIncreasing(FilterWidths(Dedup(Sort(all)), originalWidth))
    ensures forall w :: w in FilterWidths(Dedup(Sort(all)), originalWidth) <==>
      w in all && 0 < w < originalWidth
  {
    var sorted := Sort(all);
    assert forall x :: x in sorted <==> x in all by {
      forall x ensures x in sorted <==> x in all {
        assert x in sorted <==> x in multiset(sorted);
        assert x in all <==> x in multiset(all);
      }
    }
    FilterOfIncreasing(Dedup(sorted), originalWidth);
    KeptMembers(Dedup(sorted), originalWidth);
    KeptIncreasing(Dedup(sorted), originalWidth);
  }

  /**
   * `target_resize_widths`: strictly increasing widths, each strictly between 0
   * and the original width, and exactly those of the configured sizes, the
   * layout width and (when positive) the display width that lie below the
   * original width.
   */
  method TargetResizeWidths(sizes: seq<nat>, layoutWidth: nat, originalWidth: nat, displayWidth: nat)
    returns (widths: seq<nat>)
    ensures StrictlyIncreasing(widths)
    ensures forall w :: w in widths <==>
      (w in sizes || w == layoutWidth || (displayWidth > 0 && w == displayWidth)) && 0 < w < originalWidth
  {
    var all := sizes;
    if layoutWidth !in all {
      all := all + [layoutWidth];
    }
    if displayWidth > 0 && displayWidth !in all {
      all := all + [displayWidth];
    }
    var sorted := Dedup(Sort(all));
    widths := ClampWidths(sorted, originalWidth);
    PlanOfCandidates(all, originalWidth);
  }

  /** The filtering loop of `target_resize_widths`, over the sorted, deduplicated candidates. */
  method ClampWidths(sorted: seq<nat>, originalWidth: nat) returns (widths: seq<nat>)
    ensures widths == FilterWidths(sorted, originalWidth)
  {
    widths := [];
    var i := 0;
    while i < |sorted|
      invariant 0 <= i <= |sorted|
      invariant widths == FilterWidths(sorted[..i], originalWidth)
    {
      assert sorted[..i + 1][..i] == sorted[..i];
      var target := Min(sorted[i], originalWidth);
      if target == 0 || target == originalWidth {
        i := i + 1;
        continue;
      }
      if widths != [] && widths[|widths| - 1] == target {
        i := i + 1;
        continue;
      }
      widths := widths + [target];
      i := i + 1;
    }
    assert sorted[..i] == sorted;
  }
}
