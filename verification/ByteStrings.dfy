/** Byte strings in the order of SequenceCompareTo. */
module ByteStrings {
  import opened Bits

  type Bytes = seq<byte>

  predicate Less(a: Bytes, b: Bytes) {
    if b == [] then false
    else if a == [] then true
    else if a[0] != b[0] then a[0] < b[0]
    else Less(a[1..], b[1..])
  }

  predicate Starts(s: Bytes, p: Bytes) {
    |p| <= |s| && s[..|p|] == p
  }

  /** `a` ends, or has the smaller byte, where the strings first differ. */
  ghost predicate FirstDiffer(a: Bytes, b: Bytes, i: nat) {
    i <= |a| && i < |b| && a[..i] == b[..i] && (i == |a| || a[i] < b[i])
  }

  /** The order is the lexicographic one, in which a prefix comes first. */
  lemma {:induction false} LessMeaning(a: Bytes, b: Bytes)
    ensures Less(a, b) <==> exists i :: FirstDiffer(a, b, i)
    decreases |a|
  {
    if a == [] || b == [] || a[0] != b[0] {
      if b != [] {
        assert a == [] || a[0] < b[0] ==> FirstDiffer(a, b, 0);
      }
    } else {
      LessMeaning(a[1..], b[1..]);
      forall i: nat | i > 0 ensures FirstDiffer(a, b, i) <==> FirstDiffer(a[1..], b[1..], i - 1) {
        LaterDiffer(a, b, i);
      }
      if i: nat :| FirstDiffer(a[1..], b[1..], i) {
        assert FirstDiffer(a, b, i + 1);
      }
      if i: nat :| FirstDiffer(a, b, i) {
        assert i != 0;
        assert FirstDiffer(a[1..], b[1..], i - 1);
      }
    }
  }

  lemma LaterDiffer(a: Bytes, b: Bytes, i: nat)
    requires a != [] && b != [] && a[0] == b[0] && i > 0
    ensures FirstDiffer(a, b, i) <==> FirstDiffer(a[1..], b[1..], i - 1)
  {
    if i <= |a| && i <= |b| {
      assert a[..i] == [a[0]] + a[1..][..i - 1] && b[..i] == [b[0]] + b[1..][..i - 1];
      assert a[1..][..i - 1] == a[..i][1..] && b[1..][..i - 1] == b[..i][1..];
    }
  }

  lemma {:induction false} LessTotal(a: Bytes, b: Bytes)
    ensures Less(a, b) || Less(b, a) || a == b
    ensures !(Less(a, b) && Less(b, a)) && !Less(a, a)
    decreases |a|
  {
    if a != [] {
      LessTotal(a[1..], a[1..]);
      if b != [] && a[0] == b[0] {
        LessTotal(a[1..], b[1..]);
        assert a == [a[0]] + a[1..] && b == [b[0]] + b[1..];
      }
    }
  }

  lemma {:induction false} LessTransitive(a: Bytes, b: Bytes, c: Bytes)
    requires Less(a, b) && Less(b, c)
    ensures Less(a, c)
    decreases |a|
  {
    if a != [] && a[0] == b[0] == c[0] {
      LessTransitive(a[1..], b[1..], c[1..]);
    }
  }

  /** Strings between two that share a prefix share it. */
  lemma {:induction false} Between(a: Bytes, b: Bytes, c: Bytes, p: Bytes)
    requires Starts(a, p) && Starts(c, p) && (a == b || Less(a, b)) && (b == c || Less(b, c))
    ensures Starts(b, p)
    decreases |p|
  {
    if p != [] && a != b && b != c {
      assert a[0] == c[0] == p[0] && b != [] && b[0] == p[0];
      assert Starts(a[1..], p[1..]) && Starts(c[1..], p[1..]) by {
        assert a[..|p|][1..] == a[1..][..|p| - 1] && c[..|p|][1..] == c[1..][..|p| - 1];
      }
      Between(a[1..], b[1..], c[1..], p[1..]);
      assert b == [b[0]] + b[1..] && p == [p[0]] + p[1..];
    }
  }

  /** Of two ordered strings that share a prefix, the next byte does not fall; the later one is longer
      than the prefix. */
  lemma {:induction false} NextByteRises(a: Bytes, b: Bytes, p: Bytes)
    requires Starts(a, p) && Starts(b, p) && Less(a, b)
    ensures |b| > |p| && (|a| > |p| ==> a[|p|] <= b[|p|])
    decreases |p|
  {
    if p != [] {
      assert a[0] == p[0] == b[0];
      assert Starts(a[1..], p[1..]) && Starts(b[1..], p[1..]) by {
        assert a[..|p|][1..] == a[1..][..|p| - 1] && b[..|p|][1..] == b[1..][..|p| - 1];
      }
      NextByteRises(a[1..], b[1..], p[1..]);
    }
  }

  ghost predicate Ascending(strs: seq<Bytes>) {
    forall i, j :: 0 <= i < j < |strs| ==> Less(strs[i], strs[j])
  }

  /** Strings `lo` to `hi` all begin with the first `depth` bytes of string `lo`. */
  ghost predicate Share(strs: seq<Bytes>, lo: nat, hi: nat, depth: nat)
    ensures Share(strs, lo, hi, depth) ==> lo < hi <= |strs| && depth <= |strs[lo]|
  {
    && lo < hi <= |strs|
    && depth <= |strs[lo]|
    && forall i :: lo <= i < hi ==> Starts(strs[i], strs[lo][..depth])
  }

  /** Sharing between the first and the last of a range is sharing in the whole range. */
  lemma EndsShare(strs: seq<Bytes>, lo: nat, hi: nat, depth: nat)
    requires Ascending(strs) && lo < hi <= |strs| && depth <= |strs[lo]| && Starts(strs[hi - 1], strs[lo][..depth])
    ensures Share(strs, lo, hi, depth)
  {
    forall i | lo <= i < hi ensures Starts(strs[i], strs[lo][..depth]) {
      Between(strs[lo], strs[i], strs[hi - 1], strs[lo][..depth]);
    }
  }

  /** Only the first of a range can end where the shared prefix does, and next bytes do not fall. */
  lemma ShareOrder(strs: seq<Bytes>, lo: nat, hi: nat, depth: nat, i: nat, j: nat)
    requires Ascending(strs) && Share(strs, lo, hi, depth) && lo <= i < j < hi
    ensures |strs[j]| > depth && (|strs[i]| > depth ==> strs[i][depth] <= strs[j][depth])
  {
    NextByteRises(strs[i], strs[j], strs[lo][..depth]);
  }
}
