/** Byte images laid out as consecutive parts, and what lies where in them. */
module Layout {
  import opened Bytes

  /** All parts one behind the other. */
  function Join(parts: seq<seq<Byte>>): (s: seq<Byte>) {
    if parts == [] then [] else Join(parts[..|parts| - 1]) + parts[|parts| - 1]
  }

  /** Where part `k` starts. */
  function Start(parts: seq<seq<Byte>>, k: nat): (n: nat)
    requires k <= |parts|
    decreases k
  {
    if k == 0 then 0 else Start(parts, k - 1) + |parts[k - 1]|
  }

  /** `s` lies in `img` at offset `off`. */
  ghost predicate Holds(img: seq<Byte>, off: nat, s: seq<Byte>) {
    off + |s| <= |img| && img[off..off + |s|] == s
  }

  lemma {:induction false} StartPrefix(parts: seq<seq<Byte>>, k: nat, n: nat)
    requires k <= n <= |parts|
    ensures Start(parts[..n], k) == Start(parts, k)
  {
    if k > 0 {
      StartPrefix(parts, k - 1, n);
    }
  }

  lemma {:induction false} JoinLength(parts: seq<seq<Byte>>)
    ensures |Join(parts)| == Start(parts, |parts|)
  {
    if parts != [] {
      JoinLength(parts[..|parts| - 1]);
      StartPrefix(parts, |parts| - 1, |parts| - 1);
    }
  }

  lemma {:induction false} JoinHolds(parts: seq<seq<Byte>>, k: nat)
    requires k < |parts|
    ensures Holds(Join(parts), Start(parts, k), parts[k])
    decreases |parts|
  {
    var n := |parts| - 1;
    if k == n {
      JoinLength(parts[..n]);
      StartPrefix(parts, n, n);
    } else {
      JoinHolds(parts[..n], k);
      StartPrefix(parts, k, n);
    }
  }

  lemma JoinSnoc(parts: seq<seq<Byte>>, p: seq<Byte>)
    ensures Join(parts + [p]) == Join(parts) + p
  {
    assert (parts + [p])[..|parts|] == parts;
  }

  lemma {:induction false} UniformStart(parts: seq<seq<Byte>>, width: nat, k: nat)
    requires k <= |parts| && forall i :: 0 <= i < |parts| ==> |parts[i]| == width
    ensures Start(parts, k) == width * k
  {
    if k > 0 {
      UniformStart(parts, width, k - 1);
    }
  }

  lemma HoldsWithin(img: seq<Byte>, off: nat, part: seq<Byte>, at: nat, s: seq<Byte>)
    requires Holds(img, off, part) && Holds(part, at, s)
    ensures Holds(img, off + at, s)
  {
    forall i | 0 <= i < |s| ensures img[off + at..off + at + |s|][i] == s[i] {
      assert s[i] == part[at..at + |s|][i] == part[at + i] == img[off..off + |part|][at + i];
    }
  }

  /** Reading an unsigned little-endian number; out of the image it is a fault. */
  function Read(img: seq<Byte>, off: nat, width: nat): (v: int)
    ensures v >= -1
    ensures v == -1 <==> off + width > |img|
  {
    if off + width <= |img| then FromLe(img[off..off + width]) else -1
  }

  lemma ReadHeld(img: seq<Byte>, off: nat, v: nat, width: nat)
    requires Holds(img, off, Le(v, width)) && v < Pow256(width)
    ensures Read(img, off, width) == v
  {
    LeExact(v, width);
  }

  predicate NulFree(s: seq<Byte>) { 0 !in s }

  /** The C string `s` lies at `off`. */
  ghost predicate HoldsString(img: seq<Byte>, off: nat, s: seq<Byte>) {
    Holds(img, off, s + [0])
  }
}
