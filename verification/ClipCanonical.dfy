/** Canonical clipboard bytes. */
module ClipCanonical {
  import opened Common

  const NUL: byte := 0
  const LF: byte := 10
  const CR: byte := 13

  datatype ClipFormat = Utf8Text | Html | Rtf | Png | UriList | Unknown

  function CrlfToLf(b: seq<byte>): seq<byte> {
    if b == [] then []
    else if StartsCrlf(b) then [LF] + CrlfToLf(b[2..])
    else [b[0]] + CrlfToLf(b[1..])
  }

  predicate StartsCrlf(b: seq<byte>) { |b| >= 2 && b[0] == CR && b[1] == LF }

  function StripNul(b: seq<byte>): seq<byte> {
    if b != [] && b[|b| - 1] == NUL then StripNul(b[..|b| - 1]) else b
  }

  function DropLf(b: seq<byte>): seq<byte> {
    if b != [] && b[|b| - 1] == LF then b[..|b| - 1] else b
  }

  function CanonicalText(b: seq<byte>): seq<byte> { StripNul(CrlfToLf(b)) }

  function CanonicalUriList(b: seq<byte>): seq<byte> { DropLf(CrlfToLf(b)) }

  function Canonical(format: ClipFormat, b: seq<byte>): seq<byte> {
    match format
    case Utf8Text => CanonicalText(b)
    case UriList => CanonicalUriList(b)
    case _ => b
  }

  // ---- The loops that compute it ---------------------------------------------------------

  method ContainsCrlf(b: seq<byte>) returns (r: bool)
    ensures r <==> HasCrlf(b, 0)
  {
    for i := 0 to |b|
      invariant forall k :: 0 <= k < i ==> !CrlfAt(b, k)
    {
      if i + 1 < |b| && b[i] == CR && b[i + 1] == LF {
        assert CrlfAt(b, i);
        return true;
      }
    }
    r := false;
  }

  method ComputeCrlfToLf(b: seq<byte>) returns (r: seq<byte>)
    ensures r == CrlfToLf(b)
  {
    var has := ContainsCrlf(b);
    if !has {
      Untouched(b);
      return b;
    }
    r := [];
    var i := 0;
    while i < |b|
      invariant 0 <= i <= |b|
      invariant r + CrlfToLf(b[i..]) == CrlfToLf(b)
    {
      OneMore(b, i, r);
      if i + 1 < |b| && b[i] == CR && b[i + 1] == LF {
        r := r + [LF];
        i := i + 2;
      } else {
        r := r + [b[i]];
        i := i + 1;
      }
    }
    assert b[i..] == [];
  }

  lemma {:induction false} OneMore(b: seq<byte>, i: nat, r: seq<byte>)
    requires i < |b|
    ensures r + CrlfToLf(b[i..]) ==
            if CrlfAt(b, i) then (r + [LF]) + CrlfToLf(b[i + 2..]) else (r + [b[i]]) + CrlfToLf(b[i + 1..])
  {
    var rest := b[i..];
    if CrlfAt(b, i) {
      assert rest[2..] == b[i + 2..];
    } else {
      assert rest[1..] == b[i + 1..];
    }
  }

  method ComputeCanonicalText(b: seq<byte>) returns (r: seq<byte>)
    ensures r == CanonicalText(b)
  {
    r := ComputeCrlfToLf(b);
    while |r| > 0 && r[|r| - 1] == NUL
      invariant StripNul(r) == CanonicalText(b)
    {
      r := r[..|r| - 1];
    }
  }

  // ---- What it is --------------------------------------------------------------------------

  /** `r` is `b` without a tail that is all `x`. */
  predicate CutTail(b: seq<byte>, r: seq<byte>, x: byte) {
    r <= b && forall k :: |r| <= k < |b| ==> b[k] == x
  }

  lemma {:induction false} StripNulIs(b: seq<byte>)
    ensures CutTail(b, StripNul(b), 0) && (StripNul(b) == [] || StripNul(b)[|StripNul(b)| - 1] != 0)
  {
    if b != [] && b[|b| - 1] == NUL { StripNulIs(b[..|b| - 1]); }
  }

  /** Parts joined by a separator. */
  function Joined(parts: seq<seq<byte>>, sep: seq<byte>): seq<byte> {
    if parts == [] then [] else if |parts| == 1 then parts[0] else parts[0] + sep + Joined(parts[1..], sep)
  }

  lemma {:induction false} LineToLf(line: seq<byte>, rest: seq<byte>)
    requires !HasCrlf(line, 0)
    ensures CrlfToLf(line + ([CR, LF] + rest)) == line + [LF] + CrlfToLf(rest)
  {
    var b := line + ([CR, LF] + rest);
    if line == [] {
      assert b == [CR, LF] + rest && b[2..] == rest;
    } else {
      assert b[1..] == line[1..] + ([CR, LF] + rest);
      assert !StartsCrlf(b) by { assert !CrlfAt(line, 0); }
      forall k | 0 <= k < |line[1..]| ensures !CrlfAt(line[1..], k) { assert !CrlfAt(line, k + 1); }
      LineToLf(line[1..], rest);
      assert [b[0]] + line[1..] == line;
    }
  }

  /** Lines joined by CR LF become the same lines joined by LF, whatever else the lines hold. */
  lemma {:induction false} LinesKeep(lines: seq<seq<byte>>)
    requires forall i :: 0 <= i < |lines| ==> !HasCrlf(lines[i], 0)
    ensures CrlfToLf(Joined(lines, [13, 10])) == Joined(lines, [10])
  {
    if |lines| == 1 {
      Untouched(lines[0]);
    } else if lines != [] {
      LinesKeep(lines[1..]);
      var rest := Joined(lines[1..], [13, 10]);
      assert lines[0] + [13, 10] + rest == lines[0] + ([CR, LF] + rest);
      LineToLf(lines[0], rest);
    }
  }

  /** Per format: text loses its CRs before LF and then its trailing NULs, a URI list its CRs before LF and then at most
      one final LF, and everything else is left as it is. */
  lemma {:induction false} CanonicalIs(b: seq<byte>)
    ensures var t := Canonical(Utf8Text, b);
            CutTail(CrlfToLf(b), t, 0) && (t == [] || t[|t| - 1] != 0)
    ensures var u := Canonical(UriList, b);
            CrlfToLf(b) == u + [10] || (CrlfToLf(b) == u && (u == [] || u[|u| - 1] != 10))
    ensures Canonical(Html, b) == Canonical(Rtf, b) == Canonical(Png, b) == Canonical(Unknown, b) == b
  {
    StripNulIs(CrlfToLf(b));
  }

  // ---- When canonicalization is idempotent ----------------------------------------------

  predicate CrlfAt(b: seq<byte>, k: nat) { k + 1 < |b| && b[k] == CR && b[k + 1] == LF }

  predicate CrCrlfAt(b: seq<byte>, k: nat) { k + 2 < |b| && b[k] == CR && b[k + 1] == CR && b[k + 2] == LF }

  /** A CR LF at some position that leaves at least `tail` bytes after it. */
  predicate HasCrlf(b: seq<byte>, tail: nat) {
    exists k :: 0 <= k < |b| - tail - 1 && CrlfAt(b, k)
  }

  /** A CR CR LF at some position that leaves at least `tail` bytes after it. */
  predicate HasCrCrlf(b: seq<byte>, tail: nat) {
    exists k :: 0 <= k < |b| - tail - 2 && CrCrlfAt(b, k)
  }

  lemma {:induction false} Untouched(b: seq<byte>)
    requires !HasCrlf(b, 0)
    ensures CrlfToLf(b) == b
  {
    if b != [] {
      CrlfStep(b, 0);
      Untouched(b[1..]);
      assert StartsCrlf(b) ==> CrlfAt(b, 0);
    }
  }

  lemma {:induction false} NeverGrows(b: seq<byte>)
    ensures |CrlfToLf(b)| <= |b|
    ensures b == [] <==> CrlfToLf(b) == []
  {
    if b != [] { NeverGrows(if StartsCrlf(b) then b[2..] else b[1..]); }
  }

  lemma {:induction false} Shrinks(b: seq<byte>)
    requires HasCrlf(b, 0)
    ensures |CrlfToLf(b)| < |b|
  {
    if StartsCrlf(b) {
      NeverGrows(b[2..]);
    } else {
      CrlfStep(b, 0);
      Shrinks(b[1..]);
    }
  }

  /** The first byte decides HasCrlf and HasCrCrlf one step at a time. */
  lemma {:induction false} CrlfStep(b: seq<byte>, tail: nat)
    requires b != []
    ensures HasCrlf(b, tail) <==> (CrlfAt(b, 0) && |b| >= 2 + tail) || HasCrlf(b[1..], tail)
  {
    if HasCrlf(b, tail) {
      var k :| 0 <= k < |b| - tail - 1 && CrlfAt(b, k);
      if k > 0 { assert CrlfAt(b[1..], k - 1); }
    }
    if HasCrlf(b[1..], tail) {
      var k :| 0 <= k < |b[1..]| - tail - 1 && CrlfAt(b[1..], k);
      assert CrlfAt(b, k + 1);
    }
  }

  lemma {:induction false} CrCrlfStep(b: seq<byte>, tail: nat)
    requires b != []
    ensures HasCrCrlf(b, tail) <==> (CrCrlfAt(b, 0) && |b| >= 3 + tail) || HasCrCrlf(b[1..], tail)
  {
    if HasCrCrlf(b, tail) {
      var k :| 0 <= k < |b| - tail - 2 && CrCrlfAt(b, k);
      if k > 0 { assert CrCrlfAt(b[1..], k - 1); }
    }
    if HasCrCrlf(b[1..], tail) {
      var k :| 0 <= k < |b[1..]| - tail - 2 && CrCrlfAt(b[1..], k);
      assert CrCrlfAt(b, k + 1);
    }
  }

  /** A CR LF survives exactly where there was a CR CR LF, with bytes after it exactly when there were. */
  lemma {:induction false} SurvivingCrlf(b: seq<byte>, tail: nat)
    requires tail <= 1
    ensures HasCrlf(CrlfToLf(b), tail) <==> HasCrCrlf(b, tail)
  {
    if b != [] {
      var out := CrlfToLf(b);
      NeverGrows(b);
      CrlfStep(out, tail);
      CrCrlfStep(b, tail);
      if StartsCrlf(b) {
        assert out[1..] == CrlfToLf(b[2..]);
        SurvivingCrlf(b[2..], tail);
        CrCrlfStep(b[1..], tail);
        assert b[1..][1..] == b[2..];
      } else {
        assert out[1..] == CrlfToLf(b[1..]);
        SurvivingCrlf(b[1..], tail);
        if |b| >= 3 && StartsCrlf(b[1..]) {
          assert b[1..][2..] == b[3..];
          NeverGrows(b[3..]);
        }
      }
    }
  }

  lemma {:induction false} StripKeepsCrlf(b: seq<byte>)
    ensures HasCrlf(StripNul(b), 0) <==> HasCrlf(b, 0)
    ensures |StripNul(b)| <= |b| && StripNul(StripNul(b)) == StripNul(b)
  {
    if b != [] && b[|b| - 1] == NUL {
      var init := b[..|b| - 1];
      StripKeepsCrlf(init);
      assert forall k :: 0 <= k < |b| ==> CrlfAt(b, k) == CrlfAt(init, k);
    }
  }

  /** Text canonicalization is idempotent on x exactly when x contains no CR CR LF. */
  lemma {:induction false} TextIdempotentIff(x: seq<byte>)
    ensures CanonicalText(CanonicalText(x)) == CanonicalText(x) <==> !HasCrCrlf(x, 0)
  {
    var y := CanonicalText(x);
    SurvivingCrlf(x, 0);
    StripKeepsCrlf(CrlfToLf(x));
    if HasCrlf(y, 0) {
      Shrinks(y);
      StripKeepsCrlf(CrlfToLf(y));
    } else {
      Untouched(y);
    }
  }

  lemma {:induction false} TextNotIdempotent()
    ensures CanonicalText([CR, CR, LF]) == [CR, LF] && CanonicalText([CR, LF]) == [LF]
  {
    var x, y := [CR, CR, LF], [CR, LF];
    assert x[1..] == y && y[2..] == [] && CrlfToLf(y) == [LF] && CrlfToLf(x) == [CR] + CrlfToLf(y);
  }

  // ---- Lists of URIs -------------------------------------------------------------------------

  /** Two line ends close the list. */
  predicate EndsBlank(x: seq<byte>) {
    |x| >= 2 && x[|x| - 1] == LF &&
    (x[|x| - 2] == LF || (|x| >= 3 && x[|x| - 2] == CR && x[|x| - 3] == LF))
  }

  predicate EndsLfLf(x: seq<byte>) { |x| >= 2 && x[|x| - 1] == LF && x[|x| - 2] == LF }

  lemma {:induction false} DropHidesLastCrlf(z: seq<byte>)
    ensures HasCrlf(DropLf(z), 0) <==> HasCrlf(z, 1)
  {
    var y := DropLf(z);
    if HasCrlf(y, 0) {
      var k :| 0 <= k < |y| - 1 && CrlfAt(y, k);
      assert CrlfAt(z, k);
    }
    if HasCrlf(z, 1) {
      var k :| 0 <= k < |z| - 2 && CrlfAt(z, k);
      assert CrlfAt(y, k);
    }
  }

  /** The last byte of the output is the last byte of the input. */
  lemma {:induction false} LastByte(x: seq<byte>)
    requires x != []
    ensures CrlfToLf(x) != [] && CrlfToLf(x)[|CrlfToLf(x)| - 1] == x[|x| - 1]
  {
    var rest := if StartsCrlf(x) then x[2..] else x[1..];
    if rest != [] { LastByte(rest); }
  }

  function PastFirst(x: seq<byte>): seq<byte>
    requires x != []
  {
    if StartsCrlf(x) then x[2..] else x[1..]
  }

  lemma {:induction false} SingleOutput(x: seq<byte>)
    requires x != [] && |CrlfToLf(x)| == 1
    ensures x == [x[0]] || x == [CR, LF]
  {
    NeverGrows(PastFirst(x));
  }

  lemma {:induction false} BlankEndShort(x: seq<byte>)
    requires x != [] && PastFirst(x) != [] && |CrlfToLf(PastFirst(x))| == 1
    ensures EndsLfLf(CrlfToLf(x)) <==> EndsBlank(x)
  {
    SingleOutput(PastFirst(x));
    LastByte(PastFirst(x));
  }

  lemma {:induction false} BlankEnd(x: seq<byte>)
    ensures EndsLfLf(CrlfToLf(x)) <==> EndsBlank(x)
  {
    if x != [] && PastFirst(x) != [] {
      var rest := PastFirst(x);
      LastByte(rest);
      if |CrlfToLf(rest)| == 1 {
        BlankEndShort(x);
      } else {
        BlankEnd(rest);
        assert |rest| >= 2;
      }
    }
  }

  /** A URI list is canonicalized idempotently exactly when no CR CR LF has a byte after it and no
      blank line ends it. */
  lemma {:induction false} UriListIdempotentIff(x: seq<byte>)
    ensures CanonicalUriList(CanonicalUriList(x)) == CanonicalUriList(x) <==> !HasCrCrlf(x, 1) && !EndsBlank(x)
  {
    var z := CrlfToLf(x);
    var y := DropLf(z);
    SurvivingCrlf(x, 1);
    DropHidesLastCrlf(z);
    BlankEnd(x);
    if HasCrlf(y, 0) { Shrinks(y); } else { Untouched(y); }
  }
}
