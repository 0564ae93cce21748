/**
 How CCEH enters the second half of a split segment into its directory: by doubling it, or by overwriting the
 upper half of the segment's entries. It is the same relation between entries and patterns as in Dash.
 */
module CcehDirectory {
  import opened Powers
  import opened DashDirectory
  import opened DashDirectoryOps

  class Directory {
    var depth: nat
    var segment: array<nat>
    /** local_depth of each segment; the pattern it stands for follows from its splits. */
    var meta: map<nat, Meta>
    /** The number of entries at full depth, which CCEH does not keep. */
    ghost var deep: int

    ghost function View(): Dir
      reads this, segment
    {
      Dir(depth, segment[..], deep, meta)
    }

    /** Doubling: every entry twice, but the split segment's becomes its two halves. */
    method Double(x: nat, s0: nat, s1: nat)
      requires DashDirectory.Inv(View()) && x < segment.Length && segment[x] == s0 && meta[s0].localDepth == depth
      modifies this
      ensures fresh(segment) && View() == Doubled(old(View()), x, s1)
    {
      hide TopBits, Routes;
      ghost var d := View();
      var doubled := new nat[2 * segment.Length];
      for i := 0 to segment.Length
        invariant View() == d
        invariant forall k :: 0 <= k < 2 * i ==> doubled[k] == if k == 2 * x + 1 then s1 else d.entry[k / 2]
      {
        if i == x {
          doubled[2 * i] := s0;
          doubled[2 * i + 1] := s1;
        } else {
          doubled[2 * i] := segment[i];
          doubled[2 * i + 1] := segment[i];
        }
      }
      assert doubled[..] == Doubled(d, x, s1).entry;
      segment, depth, deep := doubled, depth + 1, 2;
      meta := SplitMeta(meta, s0, s1);
    }

    /** The normal split: the upper half of the entries of s0 is overwritten. */
    method Update(x: nat, s0: nat, s1: nat)
      requires DashDirectory.Inv(View()) && x < segment.Length && segment[x] == s0
      requires meta[s0].localDepth < depth && s1 !in meta
      modifies this, segment
      ensures segment == old(segment) && View() == Updated(old(View()), s0, s1)
    {
      ghost var d := View();
      hide TopBits, Inv;
      ReadsAreNamed(d);
      RightHalf(d, x, s1);
      hide Pow2, Routes;
      var localDepth := meta[s0].localDepth;
      if depth == localDepth + 1 {
        if x % 2 == 0 {
          segment[x + 1] := s1;
        } else {
          segment[x] := s1;
        }
        deep := deep + 2;
      } else {
        var stride := Pow2(depth - localDepth);
        var loc := x - x % stride;
        for i := 0 to stride / 2
          invariant segment == old(segment) && depth == d.depth && meta == d.meta && deep == d.depthCount
          invariant forall k :: 0 <= k < segment.Length ==>
            segment[k] == if loc + stride / 2 <= k < loc + stride / 2 + i then s1 else d.entry[k]
        {
          segment[loc + stride / 2 + i] := s1;
        }
      }
      meta := SplitMeta(meta, s0, s1);
      assert segment[..] == Updated(d, s0, s1).entry;
    }

    /** The directory part of Insert after s0 has split into s0 and s1: routing by pattern is kept. */
    method Install(x: nat, s0: nat, s1: nat)
      requires DashDirectory.Inv(View()) && x < segment.Length && segment[x] == s0 && s1 !in meta
      modifies this, segment
      ensures DashDirectory.Inv(View()) && View() == Apply(old(View()), Grow(x, s1))
    {
      hide TopBits, Routes, Pow2, Doubled, Updated;
      ghost var d := View();
      ReadsAreNamed(d);
      if meta[s0].localDepth == depth {
        DoubledInv(d, x, s1);
        Double(x, s0, s1);
      } else {
        UpdatedInv(d, s0, s1);
        Update(x, s0, s1);
      }
    }
  }
}
