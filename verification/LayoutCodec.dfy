/** The sortable string form of a layout stamp: 20 decimal digits, a bar, 64 hex digits. */
module LayoutCodec {
  import opened Common

  const ID_LEN: nat := 32
  const REV_DIGITS: nat := 20

  type DeviceBytes = seq<byte>

  // ---- Lexicographic order ------------------------------------------------------------------

  /** Strict lexicographic order of the elements' codes. */
  predicate LexLess<T>(a: seq<T>, b: seq<T>, code: T -> int) {
    if b == [] then false
    else if a == [] then true
    else code(a[0]) < code(b[0]) || (code(a[0]) == code(b[0]) && LexLess(a[1..], b[1..], code))
  }

  function CharCode(c: char): int { c as int }
  function ByteCode(b: byte): int { b as int }

  ghost predicate Injective<T(!new)>(code: T -> int) { forall x, y :: code(x) == code(y) ==> x == y }

  /** Blocks of equal length compare first. */
  lemma {:induction false} LexBlocks<T(!new)>(a: seq<T>, b: seq<T>, c: seq<T>, d: seq<T>, code: T -> int)
    requires |a| == |c| && Injective(code)
    ensures LexLess(a + b, c + d, code) <==> LexLess(a, c, code) || (a == c && LexLess(b, d, code))
    decreases |a|
  {
    if a == [] {
      assert a + b == b && c + d == d;
    } else {
      assert (a + b)[1..] == a[1..] + b && (c + d)[1..] == c[1..] + d;
      LexBlocks(a[1..], b, c[1..], d, code);
      assert a == [a[0]] + a[1..] && c == [c[0]] + c[1..];
    }
  }

  lemma {:induction false} LexSingle<T>(x: T, y: T, code: T -> int)
    ensures LexLess([x], [y], code) <==> code(x) < code(y)
  {
  }

  /** Byte strings of one length are ordered as the numbers they spell. */
  lemma {:induction false} IdOrderIsNumeric(a: DeviceBytes, b: DeviceBytes)
    requires |a| == |b|
    ensures LexLess(a, b, ByteCode) <==> BigEndian(a) < BigEndian(b)
    ensures a == b <==> BigEndian(a) == BigEndian(b)
    decreases |a|
  {
    if a != [] {
      var (a', x, b', y) := (a[..|a| - 1], a[|a| - 1], b[..|b| - 1], b[|b| - 1]);
      IdOrderIsNumeric(a', b');
      assert a == a' + [x] && b == b' + [y];
      LexBlocks(a', [x], b', [y], ByteCode);
      LexSingle(x, y, ByteCode);
    }
  }

  // ---- Decimal ------------------------------------------------------------------------------

  function Digit(d: nat): char
    requires d < 10
  {
    '0' + d as char
  }

  /** The last `width` decimal digits of n, zero padded. */
  function Decimal(n: nat, width: nat): string
    decreases width
  {
    if width == 0 then "" else Decimal(n / 10, width - 1) + [Digit(n % 10)]
  }

  function Pow10(w: nat): nat { if w == 0 then 1 else 10 * Pow10(w - 1) }

  predicate IsDigit(c: char) { '0' <= c <= '9' }

  function DigitsValue(s: string): nat
    requires forall i :: 0 <= i < |s| ==> IsDigit(s[i])
  {
    if s == "" then 0
    else
      assert IsDigit(s[|s| - 1]);
      DigitsValue(s[..|s| - 1]) * 10 + (s[|s| - 1] as int - '0' as int)
  }

  lemma {:induction false} DecimalReads(n: nat, w: nat)
    requires n < Pow10(w)
    ensures |Decimal(n, w)| == w && forall i :: 0 <= i < w ==> IsDigit(Decimal(n, w)[i])
    ensures DigitsValue(Decimal(n, w)) == n
    decreases w
  {
    if w > 0 {
      DecimalReads(n / 10, w - 1);
      var s := Decimal(n, w);
      assert s[..|s| - 1] == Decimal(n / 10, w - 1);
    }
  }

  lemma {:induction false} DecimalOrder(m: nat, n: nat, w: nat)
    requires m < Pow10(w) && n < Pow10(w)
    ensures LexLess(Decimal(m, w), Decimal(n, w), CharCode) <==> m < n
    ensures Decimal(m, w) == Decimal(n, w) <==> m == n
    decreases w
  {
    DecimalReads(m, w);
    DecimalReads(n, w);
    if w > 0 {
      DecimalReads(m / 10, w - 1);
      DecimalReads(n / 10, w - 1);
      DecimalOrder(m / 10, n / 10, w - 1);
      LexBlocks(Decimal(m / 10, w - 1), [Digit(m % 10)], Decimal(n / 10, w - 1), [Digit(n % 10)], CharCode);
      LexSingle(Digit(m % 10), Digit(n % 10), CharCode);
    }
  }

  lemma {:induction false} U64Fits()
    ensures U64_MAX < Pow10(REV_DIGITS)
  {
    assert Pow10(4) == 10_000;
    assert Pow10(8) == 10_000 * Pow10(4);
    assert Pow10(12) == 10_000 * Pow10(8);
    assert Pow10(16) == 10_000 * Pow10(12);
    assert Pow10(20) == 10_000 * Pow10(16);
  }

  function Unsigned(s: string): string { if |s| > 1 && s[0] == '+' then s[1..] else s }

  /** `str::parse::<u64>`: an optional plus, at least one digit, no overflow. */
  function ParseU64(s: string): Option<nat> {
    var digits := Unsigned(s);
    if digits == "" || exists i :: 0 <= i < |digits| && !IsDigit(digits[i]) then None
    else if DigitsValue(digits) > U64_MAX then None
    else Some(DigitsValue(digits))
  }

  // ---- Hexadecimal --------------------------------------------------------------------------

  function HexDigit(d: nat): char
    requires d < 16
  {
    if d < 10 then '0' + d as char else 'a' + (d - 10) as char
  }

  function HexNibble(c: char): Option<nat> {
    if '0' <= c <= '9' then Some(c as int - '0' as int)
    else if 'a' <= c <= 'f' then Some(c as int - 'a' as int + 10)
    else if 'A' <= c <= 'F' then Some(c as int - 'A' as int + 10)
    else None
  }

  function HexPair(b: byte): string { [HexDigit(b as nat / 16), HexDigit(b as nat % 16)] }

  function Hex(id: DeviceBytes): string {
    if id == [] then "" else Hex(id[..|id| - 1]) + HexPair(id[|id| - 1])
  }

  function Unhex(s: string): Option<DeviceBytes>
    requires |s| % 2 == 0
  {
    if s == "" then Some([])
    else
      var hi, lo := HexNibble(s[|s| - 2]), HexNibble(s[|s| - 1]);
      match Unhex(s[..|s| - 2])
      case Some(init) => if hi.Some? && lo.Some? then Some(init + [(hi.value * 16 + lo.value) as byte]) else None
      case None => None
  }

  function Hex32(s: string): Option<DeviceBytes> { if |s| != 2 * ID_LEN then None else Unhex(s) }

  method DeviceIdHex(id: DeviceBytes) returns (s: string)
    ensures s == Hex(id)
  {
    s := "";
    for i := 0 to |id|
      invariant s == Hex(id[..i])
    {
      assert id[..i + 1][..i] == id[..i];
      s := s + [HexDigit(id[i] as nat / 16)] + [HexDigit(id[i] as nat % 16)];
    }
    assert id[..|id|] == id;
  }

  method ParseHex32(s: string) returns (r: Option<DeviceBytes>)
    ensures r == Hex32(s)
  {
    if |s| != 2 * ID_LEN { return None; }
    var out := [];
    for i := 0 to ID_LEN
      invariant |out| == i && Unhex(s[..2 * i]) == Some(out)
    {
      var hi, lo := HexNibble(s[2 * i]), HexNibble(s[2 * i + 1]);
      assert s[..2 * (i + 1)][..2 * i] == s[..2 * i];
      if hi.None? || lo.None? {
        UnhexStops(s, i + 1);
        return None;
      }
      out := out + [(hi.value * 16 + lo.value) as byte];
    }
    assert s[..2 * ID_LEN] == s;
    r := Some(out);
  }

  /** A bad pair makes every longer parse fail. */
  lemma {:induction false} UnhexStops(s: string, i: nat)
    requires |s| % 2 == 0 && 2 * i <= |s| && Unhex(s[..2 * i]).None?
    ensures Unhex(s).None?
    decreases |s|
  {
    if 2 * i == |s| {
      assert s[..2 * i] == s;
    } else {
      assert s[..|s| - 2][..2 * i] == s[..2 * i];
      UnhexStops(s[..|s| - 2], i);
    }
  }

  lemma {:induction false} HexReads(id: DeviceBytes)
    ensures |Hex(id)| == 2 * |id| && Unhex(Hex(id)) == Some(id)
    ensures forall i :: 0 <= i < |Hex(id)| ==> Hex(id)[i] != '|'
  {
    if id != [] {
      HexReads(id[..|id| - 1]);
      var s := Hex(id);
      assert s[..|s| - 2] == Hex(id[..|id| - 1]);
      assert id == id[..|id| - 1] + [id[|id| - 1]];
    }
  }

  lemma {:induction false} PairOrder(x: byte, y: byte)
    ensures LexLess(HexPair(x), HexPair(y), CharCode) <==> x < y
    ensures HexPair(x) == HexPair(y) <==> x == y
  {
    var p, q := HexPair(x), HexPair(y);
    assert p == [p[0]] + [p[1]] && q == [q[0]] + [q[1]];
    LexBlocks([p[0]], [p[1]], [q[0]], [q[1]], CharCode);
    LexSingle(p[0], q[0], CharCode);
    LexSingle(p[1], q[1], CharCode);
  }

  lemma {:induction false} HexOrder(a: DeviceBytes, b: DeviceBytes)
    requires |a| == |b|
    ensures LexLess(Hex(a), Hex(b), CharCode) <==> LexLess(a, b, ByteCode)
    ensures Hex(a) == Hex(b) <==> a == b
    decreases |a|
  {
    HexReads(a);
    HexReads(b);
    if a != [] {
      var (a', x, b', y) := (a[..|a| - 1], a[|a| - 1], b[..|b| - 1], b[|b| - 1]);
      HexOrder(a', b');
      HexReads(a');
      HexReads(b');
      assert a == a' + [x] && b == b' + [y];
      LexBlocks(a', [x], b', [y], ByteCode);
      LexBlocks(Hex(a'), HexPair(x), Hex(b'), HexPair(y), CharCode);
      LexSingle(x, y, ByteCode);
      PairOrder(x, y);
    }
  }

  // ---- Stamps ------------------------------------------------------------------------------------

  function LwwKey(rev: nat, editor: DeviceBytes): string { Decimal(rev, REV_DIGITS) + "|" + Hex(editor) }

  /** Position of the first bar at or after k, or |s|. */
  function FirstBar(s: string, k: nat): (i: nat)
    requires k <= |s|
    ensures k <= i <= |s| && (i < |s| ==> s[i] == '|') && forall j :: k <= j < i ==> s[j] != '|'
    decreases |s| - k
  {
    if k == |s| || s[k] == '|' then k else FirstBar(s, k + 1)
  }

  function DecodeLww(s: string): Option<(nat, DeviceBytes)> {
    var bar := FirstBar(s, 0);
    if bar == |s| then None
    else
      var rev, editor := ParseU64(s[..bar]), Hex32(s[bar + 1..]);
      if rev.Some? && editor.Some? then Some((rev.value, editor.value)) else None
  }

  /** Decoding undoes encoding for every u64 revision and every 32-byte editor. */
  lemma {:induction false} DecodeEncoded(rev: nat, editor: DeviceBytes)
    requires rev <= U64_MAX && |editor| == ID_LEN
    ensures DecodeLww(LwwKey(rev, editor)) == Some((rev, editor))
  {
    U64Fits();
    PaddedDecodes(rev, editor, REV_DIGITS);
  }

  lemma {:induction false} PaddedDecodes(rev: nat, editor: DeviceBytes, w: nat)
    requires rev <= U64_MAX && rev < Pow10(w) && w > 0 && |editor| == ID_LEN
    ensures DecodeLww(Decimal(rev, w) + "|" + Hex(editor)) == Some((rev, editor))
  {
    DecimalReads(rev, w);
    HexReads(editor);
    PartsDecode(Decimal(rev, w), Hex(editor), rev, editor);
  }

  lemma {:induction false} PartsDecode(dec: string, hex: string, rev: nat, editor: DeviceBytes)
    requires dec != "" && forall i :: 0 <= i < |dec| ==> IsDigit(dec[i])
    requires DigitsValue(dec) == rev <= U64_MAX && Hex32(hex) == Some(editor)
    ensures DecodeLww(dec + "|" + hex) == Some((rev, editor))
  {
    KeyParts(dec, hex);
  }

  /** Both cases of a hexadecimal digit are read, and nothing else. */
  lemma {:induction false} NibbleIs(c: char, d: nat)
    ensures d < 16 ==> HexNibble("0123456789abcdef"[d]) == HexNibble("0123456789ABCDEF"[d]) == Some(d)
    ensures HexNibble(c).None? <==> c !in "0123456789abcdefABCDEF"
  {
    if HexNibble(c).Some? {
      var v := HexNibble(c).value;
      assert c == "0123456789abcdef"[v] || c == "0123456789ABCDEF"[v];
      assert c in "0123456789abcdefABCDEF" by {
        if c == "0123456789abcdef"[v] {
          assert c == "0123456789abcdefABCDEF"[v];
        } else {
          assert c == "0123456789abcdefABCDEF"[v + 6];
        }
      }
    }
  }

  /** A revision is digits that fit a u64, with or without a plus sign in front. */
  lemma {:induction false} ParseIs(s: string)
    requires s != "" && forall i :: 0 <= i < |s| ==> IsDigit(s[i])
    ensures ParseU64(s) == ParseU64("+" + s) == if DigitsValue(s) <= U64_MAX then Some(DigitsValue(s)) else None
    ensures ParseU64("") == ParseU64("+") == None
  {
    assert IsDigit(s[0]) && ("+" + s)[1..] == s;
    OnlyDigitsParse("+", 0);
  }

  lemma {:induction false} OnlyDigitsParse(s: string, i: nat)
    requires i < |s| && !IsDigit(s[i]) && (i > 0 || s[0] != '+' || s == "+")
    ensures ParseU64(s).None?
  {
    var plus := |s| > 1 && s[0] == '+';
    assert Unsigned(s)[if plus then i - 1 else i] == s[i];
  }

  /** A string decodes exactly if what is before its first bar is a revision and what is after it 64 digits. */
  lemma {:induction false} DecodesIff(dec: string, hex: string)
    requires forall i :: 0 <= i < |dec| ==> dec[i] != '|'
    ensures DecodeLww(dec + "|" + hex).Some? <==> ParseU64(dec).Some? && |hex| == 64 && Unhex(hex).Some?
    ensures DecodeLww(dec).None?
  {
    var s := dec + "|" + hex;
    assert s[|dec|] == '|' && s[..|dec|] == dec && s[|dec| + 1..] == hex;
    forall i | 0 <= i < |dec| ensures s[i] != '|' { assert s[i] == dec[i]; }
    assert FirstBar(s, 0) == |dec| && FirstBar(dec, 0) == |dec|;
  }

  predicate IsLowerHex(c: char) { c in "0123456789abcdef" }

  lemma {:induction false} HexIsLower(id: DeviceBytes)
    ensures forall i :: 0 <= i < |Hex(id)| ==> IsLowerHex(Hex(id)[i])
  {
    if id != [] {
      HexIsLower(id[..|id| - 1]);
      PairIsLower(id[|id| - 1]);
    }
  }

  lemma {:induction false} PairIsLower(b: byte)
    ensures IsLowerHex(HexPair(b)[0]) && IsLowerHex(HexPair(b)[1])
  {
    DigitIsLower(b as nat / 16);
    DigitIsLower(b as nat % 16);
  }

  lemma {:induction false} DigitIsLower(d: nat)
    requires d < 16
    ensures HexDigit(d) == "0123456789abcdef"[d]
  {
  }

  /** A key is 20 digits, a bar and 64 lower-case hexadecimal digits. */
  lemma {:induction false} KeyFormat(rev: nat, editor: DeviceBytes)
    requires rev <= U64_MAX && |editor| == ID_LEN
    ensures var s := LwwKey(rev, editor);
            && |s| == 85 && s[20] == '|'
            && (forall i :: 0 <= i < 20 ==> '0' <= s[i] <= '9')
            && (forall i :: 21 <= i < 85 ==> IsLowerHex(s[i]))
  {
    U64Fits();
    DecimalReads(rev, REV_DIGITS);
    HexReads(editor);
    HexIsLower(editor);
    KeyLayout(Decimal(rev, REV_DIGITS), Hex(editor));
  }

  lemma {:induction false} KeyLayout(dec: string, hex: string)
    requires |dec| == 20 && |hex| == 64 && (forall i :: 0 <= i < 20 ==> IsDigit(dec[i]))
    requires forall i :: 0 <= i < 64 ==> IsLowerHex(hex[i])
    ensures var s := dec + "|" + hex;
            && |s| == 85 && s[20] == '|'
            && (forall i :: 0 <= i < 20 ==> '0' <= s[i] <= '9')
            && (forall i :: 21 <= i < 85 ==> IsLowerHex(s[i]))
  {
    var s := dec + "|" + hex;
    forall i | 0 <= i < 20 ensures '0' <= s[i] <= '9' { assert IsDigit(dec[i]); }
    forall i | 21 <= i < 85 ensures IsLowerHex(s[i]) { assert s[i] == hex[i - 21]; }
  }

  /** The bar of a key is where its digits end. */
  lemma {:induction false} KeyParts(dec: string, hex: string)
    requires dec != "" && forall i :: 0 <= i < |dec| ==> IsDigit(dec[i])
    ensures var s := dec + "|" + hex;
            FirstBar(s, 0) == |dec| < |s| && s[..|dec|] == dec && s[|dec| + 1..] == hex
    ensures dec[0] != '+'
  {
    var s := dec + "|" + hex;
    assert s[|dec|] == '|';
    forall i | 0 <= i < |dec| ensures s[i] != '|' { assert s[i] == dec[i] && IsDigit(dec[i]); }
    assert IsDigit(dec[0]);
  }

  /** Equal-length heads, then a bar: the tails decide only when the heads agree. */
  lemma {:induction false} BarOrder(d: string, h: string, d': string, h': string)
    requires |d| == |d'| && |h| == |h'|
    ensures LexLess(d + "|" + h, d' + "|" + h', CharCode) <==>
            LexLess(d, d', CharCode) || (d == d' && LexLess(h, h', CharCode))
  {
    assert d + "|" + h == d + ("|" + h) && d' + "|" + h' == d' + ("|" + h');
    LexBlocks(d, "|" + h, d', "|" + h', CharCode);
    LexBlocks("|", h, "|", h', CharCode);
    LexSingle('|', '|', CharCode);
  }

  /** The order of stamps whose revisions fit in `w` digits. */
  lemma {:induction false} PaddedOrder(rev: nat, editor: DeviceBytes, rev': nat, editor': DeviceBytes, w: nat)
    requires rev < Pow10(w) && rev' < Pow10(w) && |editor| == |editor'|
    ensures LexLess(Decimal(rev, w) + "|" + Hex(editor), Decimal(rev', w) + "|" + Hex(editor'), CharCode) <==>
            rev < rev' || (rev == rev' && LexLess(editor, editor', ByteCode))
  {
    DecimalReads(rev, w);
    DecimalReads(rev', w);
    DecimalOrder(rev, rev', w);
    HexReads(editor);
    HexReads(editor');
    HexOrder(editor, editor');
    BarOrder(Decimal(rev, w), Hex(editor), Decimal(rev', w), Hex(editor'));
  }

  /** String order of stamps is the order of (revision, editor). */
  lemma {:induction false} StampOrder(rev: nat, editor: DeviceBytes, rev': nat, editor': DeviceBytes)
    requires rev <= U64_MAX && rev' <= U64_MAX && |editor| == |editor'| == ID_LEN
    ensures LexLess(LwwKey(rev, editor), LwwKey(rev', editor'), CharCode) <==>
            rev < rev' || (rev == rev' && LexLess(editor, editor', ByteCode))
  {
    U64Fits();
    PaddedOrder(rev, editor, rev', editor', REV_DIGITS);
  }

  // ---- Resolving a register --------------------------------------------------------------------------

  /** (rev, editor) order on decoded stamps. */
  predicate Below(a: (nat, DeviceBytes), b: (nat, DeviceBytes)) {
    a.0 < b.0 || (a.0 == b.0 && LexLess(a.1, b.1, ByteCode))
  }

  function Clipped(a: (nat, DeviceBytes), cap: nat): (nat, DeviceBytes) { (Min(a.0, cap), a.1) }

  function ZeroStamp(): (nat, DeviceBytes) { (0, seq(ID_LEN, _ => 0)) }

  /** `best` is the zero stamp or a clipped value, and no clipped value is above it. */
  predicate IsBest(values: seq<string>, cap: nat, best: (nat, DeviceBytes)) {
    && (best == ZeroStamp() || exists i :: 0 <= i < |values| && DecodeLww(values[i]).Some?
                                 && best == Clipped(DecodeLww(values[i]).value, cap))
    && (forall i :: 0 <= i < |values| && DecodeLww(values[i]).Some? ==>
          !Below(best, Clipped(DecodeLww(values[i]).value, cap)))
  }

  /** The loop keeps the maximum of the values it has decoded; malformed values are skipped. */
  /** No stamp, however large, resolves above the cap, and one above it counts as exactly the cap. */
  lemma {:induction false} CapHolds(values: seq<string>, cap: nat, best: (nat, DeviceBytes), i: nat)
    requires IsBest(values, cap, best) && i < |values|
    ensures best.0 <= cap
    ensures DecodeLww(values[i]).Some? && DecodeLww(values[i]).value.0 >= cap ==> best.0 == cap
  {
  }

  /** The larger of the best so far and a decoded value, clipped; a malformed value is skipped. */
  function Better(best: (nat, DeviceBytes), cand: Option<(nat, DeviceBytes)>, cap: nat): (nat, DeviceBytes) {
    if cand.Some? && Below(best, Clipped(cand.value, cap)) then Clipped(cand.value, cap) else best
  }

  lemma {:induction false} BestSoFar(values: seq<string>, i: nat, cap: nat, best: (nat, DeviceBytes))
    requires i < |values| && IsBest(values[..i], cap, best)
    ensures IsBest(values[..i + 1], cap, Better(best, DecodeLww(values[i]), cap))
  {
    var cand := DecodeLww(values[i]);
    assert values[..i + 1] == values[..i] + [values[i]];
    if cand.Some? && Below(best, Clipped(cand.value, cap)) {
      NewBest(values[..i], values[i], cap, best);
    } else {
      SameBest(values[..i], values[i], cap, best);
    }
  }

  method ResolvedLww(values: seq<string>, cap: nat) returns (best: (nat, DeviceBytes))
    ensures IsBest(values, cap, best)
  {
    best := ZeroStamp();
    for i := 0 to |values|
      invariant IsBest(values[..i], cap, best)
    {
      BestSoFar(values, i, cap, best);
      best := Better(best, DecodeLww(values[i]), cap);
    }
    assert values[..|values|] == values;
  }

  lemma {:induction false} NewBest(before: seq<string>, v: string, cap: nat, best: (nat, DeviceBytes))
    requires IsBest(before, cap, best) && DecodeLww(v).Some? && Below(best, Clipped(DecodeLww(v).value, cap))
    ensures IsBest(before + [v], cap, Clipped(DecodeLww(v).value, cap))
  {
    var all, top := before + [v], Clipped(DecodeLww(v).value, cap);
    assert all[|before|] == v;
    forall i | 0 <= i < |all| && DecodeLww(all[i]).Some? ensures !Below(top, Clipped(DecodeLww(all[i]).value, cap)) {
      var c := Clipped(DecodeLww(all[i]).value, cap);
      if i < |before| {
        assert all[i] == before[i] && !Below(best, c);
        if Below(top, c) { BelowTrans(best, top, c); }
      } else {
        NotBelowSelf(top.1);
      }
    }
  }

  lemma {:induction false} SameBest(before: seq<string>, v: string, cap: nat, best: (nat, DeviceBytes))
    requires IsBest(before, cap, best)
    requires DecodeLww(v).Some? ==> !Below(best, Clipped(DecodeLww(v).value, cap))
    ensures IsBest(before + [v], cap, best)
  {
    var all := before + [v];
    assert forall i :: 0 <= i < |before| ==> all[i] == before[i];
  }

  lemma {:induction false} LexTrans(a: DeviceBytes, b: DeviceBytes, c: DeviceBytes)
    requires LexLess(a, b, ByteCode) && LexLess(b, c, ByteCode)
    ensures LexLess(a, c, ByteCode)
    decreases |a|
  {
    if a != [] && a[0] == b[0] && b[0] == c[0] { LexTrans(a[1..], b[1..], c[1..]); }
  }

  lemma {:induction false} BelowTrans(a: (nat, DeviceBytes), b: (nat, DeviceBytes), c: (nat, DeviceBytes))
    requires Below(a, b) && Below(b, c)
    ensures Below(a, c)
  {
    if a.0 == b.0 && b.0 == c.0 { LexTrans(a.1, b.1, c.1); }
  }

  lemma {:induction false} NotBelowSelf(a: DeviceBytes)
    ensures !LexLess(a, a, ByteCode)
  {
    if a != [] { NotBelowSelf(a[1..]); }
  }
}
