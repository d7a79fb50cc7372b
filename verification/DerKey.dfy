/** Extracting the Ed25519 key from a DER certificate by walking its TLVs. */
module DerKey {
  import opened Common

  const CONTEXT0: byte := 0xA0
  const KEY_LEN: nat := 32

  datatype DerError = BadDer

  datatype Cursor = Cursor(buf: seq<byte>, pos: nat)

  /** How many length octets follow the first, or an error for indefinite and over-long forms. */
  function LongOctets(first: byte): Result<nat, DerError> {
    if first < 128 then Ok(0)
    else if 1 <= first as nat - 128 <= 4 then Ok(first as nat - 128)
    else Err(BadDer)
  }

  /** The TLV at the cursor as (tag, content start, content end). */
  function ReadTlv(c: Cursor): Result<(byte, nat, nat), DerError> {
    if c.pos + 1 >= |c.buf| then Err(BadDer)
    else
      var first := c.buf[c.pos + 1];
      var n :- LongOctets(first);
      if c.pos + 2 + n > |c.buf| then Err(BadDer)
      else
        var len := if first < 128 then first as nat else BigEndian(c.buf[c.pos + 2..c.pos + 2 + n]);
        var start := c.pos + 2 + n;
        if start + len > |c.buf| then Err(BadDer) else Ok((c.buf[c.pos], start, start + len))
  }

  function Enter(c: Cursor): Result<Cursor, DerError> {
    var t :- ReadTlv(c);
    if t.1 <= t.2 <= |c.buf| then Ok(Cursor(c.buf[t.1..t.2], 0)) else Err(BadDer)
  }

  function Skip(c: Cursor): Result<Cursor, DerError> {
    var t :- ReadTlv(c);
    Ok(c.(pos := t.2))
  }

  function SkipOptional(c: Cursor): Result<Cursor, DerError> {
    if c.pos >= |c.buf| then Err(BadDer)
    else if c.buf[c.pos] == CONTEXT0 then Skip(c) else Ok(c)
  }

  function SkipFive(c: Cursor): Result<Cursor, DerError> {
    var c1 :- Skip(c);
    var c2 :- Skip(c1);
    var c3 :- Skip(c2);
    var c4 :- Skip(c3);
    Skip(c4)
  }

  function KeyOf(bits: seq<byte>): Result<seq<byte>, DerError> {
    if |bits| != 1 + KEY_LEN || bits[0] != 0 then Err(BadDer) else Ok(bits[1..])
  }

  function SubjectKeyAt(der: seq<byte>): Result<Cursor, DerError> {
    var cert :- Enter(Cursor(der, 0));
    var tbs :- Enter(cert);
    var serial :- SkipOptional(tbs);
    SkipFive(serial)
  }

  /** The key inside the SubjectPublicKeyInfo at the cursor. */
  function SubjectKey(spkiAt: Cursor): Result<seq<byte>, DerError> {
    var spki :- Enter(spkiAt);
    var bitsAt :- Skip(spki);
    var bits :- Enter(bitsAt);
    KeyOf(bits.buf)
  }

  function ExtractKey(der: seq<byte>): Result<seq<byte>, DerError> {
    var spkiAt :- SubjectKeyAt(der);
    SubjectKey(spkiAt)
  }

  /** Short form, or one to four long-form octets; indefinite and longer forms are errors. */
  lemma {:induction false} LengthForms(first: byte)
    ensures LongOctets(first) == Ok(0) <==> first < 0x80
    ensures forall n :: 1 <= n <= 4 ==> (LongOctets(first) == Ok(n) <==> first as int == 0x80 + n)
    ensures LongOctets(first).Err? <==> first == 0x80 || first > 0x84
  {
  }

  // ---- The machine --------------------------------------------------------------------------

  class DerCursor {
    var buf: seq<byte>
    var pos: nat

    ghost function Now(): Cursor
      reads this
    {
      Cursor(buf, pos)
    }

    constructor (buf: seq<byte>)
      ensures Now() == Cursor(buf, 0)
    {
      this.buf, pos := buf, 0;
    }

    /** Every index is checked before use, on any input. */
    method ReadHeader() returns (r: Result<(byte, nat, nat), DerError>)
      ensures r == ReadTlv(Now())
    {
      if pos >= |buf| { return Err(BadDer); }
      var tag := buf[pos];
      if pos + 1 >= |buf| { return Err(BadDer); }
      var lenByte := buf[pos + 1];
      var len, header := lenByte as nat, 2;
      if lenByte >= 128 {
        var n := lenByte as nat - 128;
        if n == 0 || n > 4 { return Err(BadDer); }
        len := 0;
        for i := 0 to n
          invariant pos + 2 + i <= |buf|
          invariant len == BigEndian(buf[pos + 2..pos + 2 + i])
        {
          if pos + 2 + i >= |buf| { return Err(BadDer); }
          assert buf[pos + 2..pos + 2 + i + 1][..i] == buf[pos + 2..pos + 2 + i];
          len := len * 256 + buf[pos + 2 + i] as nat;
        }
        header := 2 + n;
      }
      var start := pos + header;
      if start + len > |buf| { return Err(BadDer); }
      r := Ok((tag, start, start + len));
    }

    method EnterSequence() returns (r: Result<(), DerError>)
      modifies this
      ensures match Enter(old(Now()))
              case Ok(c) => r == Ok(()) && Now() == c
              case Err(e) => r == Err(e) && Now() == old(Now())
    {
      var t := ReadHeader();
      if t.Err? { return Err(BadDer); }
      buf, pos := buf[t.value.1..t.value.2], 0;
      r := Ok(());
    }

    method SkipField() returns (r: Result<(), DerError>)
      modifies this
      ensures match Skip(old(Now()))
              case Ok(c) => r == Ok(()) && Now() == c
              case Err(e) => r == Err(e) && Now() == old(Now())
    {
      var t := ReadHeader();
      if t.Err? { return Err(BadDer); }
      pos := t.value.2;
      r := Ok(());
    }

    /** Content of the field at the cursor, leaving the cursor behind the field. */
    method ReadFieldContent() returns (r: Result<seq<byte>, DerError>)
      modifies this
      ensures match Enter(old(Now()))
              case Ok(c) => r == Ok(c.buf) && Ok(Now()) == Skip(old(Now()))
              case Err(e) => r == Err(e) && Now() == old(Now())
    {
      var t := ReadHeader();
      if t.Err? { return Err(BadDer); }
      r := Ok(buf[t.value.1..t.value.2]);
      pos := t.value.2;
    }

    method SkipOptionalContext0() returns (r: Result<(), DerError>)
      modifies this
      ensures match SkipOptional(old(Now()))
              case Ok(c) => r == Ok(()) && Now() == c
              case Err(e) => r == Err(e) && Now() == old(Now())
    {
      if pos >= |buf| { return Err(BadDer); }
      if buf[pos] == CONTEXT0 {
        r := SkipField();
        return;
      }
      r := Ok(());
    }
  }

  /** serialNumber, signature, issuer, validity, subject. */
  method SkipFiveFields(c: DerCursor) returns (r: Result<(), DerError>)
    modifies c
    ensures match SkipFive(old(c.Now()))
            case Ok(d) => r == Ok(()) && c.Now() == d
            case Err(e) => r == Err(e)
  {
    r := c.SkipField();
    if r.Err? { return; }
    r := c.SkipField();
    if r.Err? { return; }
    r := c.SkipField();
    if r.Err? { return; }
    r := c.SkipField();
    if r.Err? { return; }
    r := c.SkipField();
  }

  /** Certificate, TBSCertificate, and past everything before the subject's key. */
  method ToSubjectKey(cert: DerCursor) returns (r: Result<(), DerError>)
    requires cert.pos == 0
    modifies cert
    ensures match SubjectKeyAt(old(cert.buf))
            case Ok(d) => r == Ok(()) && cert.Now() == d
            case Err(e) => r == Err(e)
  {
    r := cert.EnterSequence();
    if r.Err? { return; }
    r := cert.EnterSequence();
    if r.Err? { return; }
    r := cert.SkipOptionalContext0();
    if r.Err? { return; }
    r := SkipFiveFields(cert);
  }

  method ReadSubjectKey(cert: DerCursor) returns (r: Result<seq<byte>, DerError>)
    modifies cert
    ensures r == SubjectKey(old(cert.Now()))
  {
    var inner := cert.ReadFieldContent();
    if inner.Err? { return Err(BadDer); }
    var spki := new DerCursor(inner.value);
    var ok := spki.SkipField();
    if ok.Err? { return Err(BadDer); }
    var bits := spki.ReadFieldContent();
    if bits.Err? { return Err(BadDer); }
    r := KeyOf(bits.value);
  }

  method PublicKeyFromCert(der: seq<byte>) returns (r: Result<seq<byte>, DerError>)
    ensures r == ExtractKey(der)
  {
    var cert := new DerCursor(der);
    var ok := ToSubjectKey(cert);
    if ok.Err? { return Err(ok.error); }
    r := ReadSubjectKey(cert);
  }

  // ---- Certificates as data --------------------------------------------------------------------

  /** A TLV with its length octets spelled out. */
  datatype Tlv = Tlv(tag: byte, len: seq<byte>, content: seq<byte>)
  {
    /** Definite length, short form or long form of one to four octets. */
    predicate Valid() {
      && |len| >= 1
      && match LongOctets(len[0])
         case Err(_) => false
         case Ok(n) => |len| == 1 + n && |content| == (if len[0] < 128 then len[0] as nat else BigEndian(len[1..]))
    }
    function Raw(): seq<byte> { [tag] + len + content }
    predicate Tagged(t: byte) { tag == t && Valid() }
  }

  function RawAll(ts: seq<Tlv>): seq<byte> {
    if ts == [] then [] else ts[0].Raw() + RawAll(ts[1..])
  }

  /** What the walk looks at: an outer TLV; in it a first TLV; in that five or six header fields and then a TLV; in
      that one field and then a TLV that holds a zero octet and 32 bytes. Nothing else is looked at. */
  datatype Shape = Shape(outer: Tlv, tbs: Tlv, fields: seq<Tlv>, spki: Tlv, algorithm: Tlv, bits: Tlv,
                         spkiRest: seq<byte>, tbsRest: seq<byte>, outerRest: seq<byte>, trailing: seq<byte>,
                         key: seq<byte>)
  {
    function Der(): seq<byte> { outer.Raw() + trailing }

    /** No tag matters but that of a first header field, which is [0] exactly when there are six. */
    predicate Accepted() {
      && outer.Valid() && tbs.Valid() && spki.Valid() && algorithm.Valid() && bits.Valid()
      && (forall i :: 0 <= i < |fields| ==> fields[i].Valid())
      && outer.content == tbs.Raw() + outerRest
      && tbs.content == RawAll(fields) + (spki.Raw() + tbsRest)
      && spki.content == algorithm.Raw() + (bits.Raw() + spkiRest)
      && bits.content == [0] + key && |key| == KEY_LEN
      && ((|fields| == 6 && fields[0].tag == CONTEXT0) || (|fields| == 5 && fields[0].tag != CONTEXT0))
    }
  }

  const SEQUENCE: byte := 0x30
  const INTEGER: byte := 0x02
  const BIT_STRING: byte := 0x03

  /** id-Ed25519 without parameters, as section 3 of RFC 8410 has it. */
  const ED25519: seq<byte> := [0x06, 0x03, 0x2B, 0x65, 0x70]

  /** A certificate of section 4.1 of RFC 5280, down to the fields the walk passes. */
  datatype Certificate = Certificate(
    outer: Tlv, tbs: Tlv, version: Option<Tlv>, serial: Tlv, signature: Tlv, issuer: Tlv, validity: Tlv, subject: Tlv,
    spki: Tlv, algorithm: Tlv, bits: Tlv, extras: seq<Tlv>, signatureAlgorithm: Tlv, signatureValue: Tlv,
    key: seq<byte>)
  {
    function Der(): seq<byte> { outer.Raw() }

    function Header(): seq<Tlv> {
      (if version.Some? then [version.value] else []) + [serial, signature, issuer, validity, subject]
    }

    /** Well formed, with a subject key of the algorithm that `oid` names. */
    predicate WellFormed(oid: seq<byte>) {
      && outer.Tagged(SEQUENCE) && outer.content == RawAll([tbs, signatureAlgorithm, signatureValue])
      && signatureAlgorithm.Tagged(SEQUENCE) && signatureValue.Tagged(BIT_STRING)
      && tbs.Tagged(SEQUENCE) && tbs.content == RawAll(Header() + ([spki] + extras))
      && (version.Some? ==> version.value.Tagged(CONTEXT0))
      && serial.Tagged(INTEGER) && signature.Tagged(SEQUENCE) && issuer.Tagged(SEQUENCE)
      && validity.Tagged(SEQUENCE) && subject.Tagged(SEQUENCE)
      && (forall i :: 0 <= i < |extras| ==> extras[i].Valid() && extras[i].tag in [0x81, 0x82, 0xA3])
      && spki.Tagged(SEQUENCE) && spki.content == RawAll([algorithm, bits])
      && algorithm.Tagged(SEQUENCE) && algorithm.content == oid
      && bits.Tagged(BIT_STRING) && bits.content == [0] + key && |key| == KEY_LEN
    }
  }

  // ---- The walk finds the key --------------------------------------------------------------------

  /** The buffer from `pos` on is the TLV `t` followed by `post`. */
  predicate Holds(buf: seq<byte>, pos: nat, t: Tlv, post: seq<byte>) {
    t.Valid() && pos <= |buf| && buf[pos..] == t.Raw() + post
  }

  /** A slice of a suffix is a slice of the whole. */
  lemma {:induction false} SliceAt(buf: seq<byte>, pos: nat, rest: seq<byte>, a: nat, b: nat)
    requires pos <= |buf| && rest == buf[pos..] && a <= b <= |rest|
    ensures pos + b <= |buf| && buf[pos + a..pos + b] == rest[a..b]
  {
  }

  /** Where the parts of a TLV lie in the bytes that start with it. */
  lemma {:induction false} RawParts(t: Tlv, post: seq<byte>)
    requires t.Valid()
    ensures var (rest, n) := (t.Raw() + post, |t.len|);
            && |t.Raw()| == 1 + n + |t.content| <= |rest|
            && rest[0] == t.tag && rest[1] == t.len[0]
            && rest[2..1 + n] == t.len[1..] && rest[1 + n..|t.Raw()|] == t.content
  {
    var rest, n := t.Raw() + post, |t.len|;
    assert rest[1..1 + n] == t.len;
    assert rest[2..1 + n] == rest[1..1 + n][1..];
  }

  /** Header and contents of the TLV at `pos`. */
  lemma {:induction false} ReadParts(buf: seq<byte>, pos: nat, t: Tlv, post: seq<byte>)
    requires Holds(buf, pos, t, post)
    ensures pos + |t.Raw()| <= |buf| && |t.Raw()| == 1 + |t.len| + |t.content|
    ensures buf[pos] == t.tag && buf[pos + 1] == t.len[0]
    ensures buf[pos + 2..pos + 1 + |t.len|] == t.len[1..]
    ensures buf[pos + 1 + |t.len|..pos + |t.Raw()|] == t.content
  {
    var rest, n := buf[pos..], |t.len|;
    RawParts(t, post);
    assert buf[pos] == rest[0] && buf[pos + 1] == rest[1];
    SliceAt(buf, pos, rest, 2, 1 + n);
    SliceAt(buf, pos, rest, 1 + n, |t.Raw()|);
  }

  lemma {:induction false} PostAt(buf: seq<byte>, pos: nat, t: Tlv, post: seq<byte>)
    requires Holds(buf, pos, t, post)
    ensures pos + |t.Raw()| + |post| == |buf| && buf[pos + |t.Raw()|..] == post
  {
    assert |buf[pos..]| == |t.Raw()| + |post|;
    assert buf[pos + |t.Raw()|..] == buf[pos..][|t.Raw()|..];
  }

  lemma {:induction false} ReadAt(buf: seq<byte>, pos: nat, t: Tlv, post: seq<byte>)
    requires Holds(buf, pos, t, post)
    ensures ReadTlv(Cursor(buf, pos)) == Ok((t.tag, pos + 1 + |t.len|, pos + |t.Raw()|))
    ensures pos + |t.Raw()| <= |buf| && buf[pos + 1 + |t.len|..pos + |t.Raw()|] == t.content
    ensures buf[pos + |t.Raw()|..] == post
  {
    ReadParts(buf, pos, t, post);
    PostAt(buf, pos, t, post);
  }

  lemma {:induction false} EnterAt(buf: seq<byte>, pos: nat, t: Tlv, post: seq<byte>)
    requires Holds(buf, pos, t, post)
    ensures Enter(Cursor(buf, pos)) == Ok(Cursor(t.content, 0))
  {
    ReadAt(buf, pos, t, post);
  }

  lemma {:induction false} SkipAt(buf: seq<byte>, pos: nat, t: Tlv, post: seq<byte>)
    requires Holds(buf, pos, t, post)
    ensures Skip(Cursor(buf, pos)) == Ok(Cursor(buf, |buf| - |post|))
    ensures |post| <= |buf| && buf[|buf| - |post|..] == post
  {
    ReadAt(buf, pos, t, post);
    PostAt(buf, pos, t, post);
  }

  function SkipN(c: Cursor, n: nat): Result<Cursor, DerError>
    decreases n
  {
    if n == 0 then Ok(c)
    else
      var c1 :- Skip(c);
      SkipN(c1, n - 1)
  }

  lemma {:induction false} SkipOne(c: Cursor, n: nat)
    ensures SkipN(c, n + 1) == if Skip(c).Ok? then SkipN(Skip(c).value, n) else Err(BadDer)
    ensures SkipN(c, 1) == Skip(c)
  {
    if Skip(c).Ok? { assert SkipN(Skip(c).value, 0) == Ok(Skip(c).value); }
  }

  lemma {:induction false} SkipFiveIs(c: Cursor)
    ensures SkipFive(c) == SkipN(c, 5)
  {
    SkipOne(c, 4);
    if Skip(c).Ok? {
      var c1 := Skip(c).value;
      SkipOne(c1, 3);
      if Skip(c1).Ok? {
        var c2 := Skip(c1).value;
        SkipOne(c2, 2);
        if Skip(c2).Ok? {
          var c3 := Skip(c2).value;
          SkipOne(c3, 1);
          if Skip(c3).Ok? { SkipOne(Skip(c3).value, 0); }
        }
      }
    }
  }

  lemma {:induction false} SkipAll(buf: seq<byte>, pos: nat, ts: seq<Tlv>, post: seq<byte>)
    requires forall i :: 0 <= i < |ts| ==> ts[i].Valid()
    requires pos <= |buf| && buf[pos..] == RawAll(ts) + post
    ensures SkipN(Cursor(buf, pos), |ts|) == Ok(Cursor(buf, |buf| - |post|))
    ensures |post| <= |buf| && buf[|buf| - |post|..] == post
    decreases |ts|
  {
    if ts != [] {
      var more := RawAll(ts[1..]) + post;
      assert buf[pos..] == ts[0].Raw() + more;
      SkipAt(buf, pos, ts[0], more);
      SkipAll(buf, |buf| - |more|, ts[1..], post);
      SkipOne(Cursor(buf, pos), |ts| - 1);
    }
  }

  /** Past the optional version and five fields, whichever of the two shapes. */
  lemma {:induction false} HeaderSkipped(buf: seq<byte>, ts: seq<Tlv>, post: seq<byte>)
    requires forall i :: 0 <= i < |ts| ==> ts[i].Valid()
    requires (|ts| == 6 && ts[0].tag == CONTEXT0) || (|ts| == 5 && ts[0].tag != CONTEXT0)
    requires buf == RawAll(ts) + post
    ensures |post| <= |buf| && buf[|buf| - |post|..] == post
    ensures SkipOptional(Cursor(buf, 0)).Ok?
    ensures SkipFive(SkipOptional(Cursor(buf, 0)).value) == Ok(Cursor(buf, |buf| - |post|))
  {
    assert buf[0..] == buf;
    SkipAll(buf, 0, ts, post);
    assert buf[0] == RawAll(ts)[0] == ts[0].tag;
    SkipOne(Cursor(buf, 0), 5);
    SkipFiveIs(if |ts| == 6 && Skip(Cursor(buf, 0)).Ok? then Skip(Cursor(buf, 0)).value else Cursor(buf, 0));
  }

  /** Past one TLV, then into the next. */
  lemma {:induction false} SkipThenEnter(buf: seq<byte>, t: Tlv, u: Tlv, rest: seq<byte>, post: seq<byte>)
    requires Holds(buf, 0, t, post) && Holds(post, 0, u, rest)
    ensures Skip(Cursor(buf, 0)) == Ok(Cursor(buf, |buf| - |post|)) && |post| <= |buf|
    ensures Enter(Cursor(buf, |buf| - |post|)) == Ok(Cursor(u.content, 0))
  {
    SkipAt(buf, 0, t, post);
    HoldsBehind(buf, post, u, rest);
    EnterAt(buf, |buf| - |post|, u, rest);
  }

  lemma {:induction false} HoldsBehind(buf: seq<byte>, post: seq<byte>, u: Tlv, rest: seq<byte>)
    requires |post| <= |buf| && buf[|buf| - |post|..] == post && Holds(post, 0, u, rest)
    ensures Holds(buf, |buf| - |post|, u, rest)
  {
    assert post[0..] == post;
  }

  lemma {:induction false} SpkiKey(spki: seq<byte>, algorithm: Tlv, bits: Tlv, rest: seq<byte>, key: seq<byte>)
    requires IsSpki(spki, algorithm, bits, rest, key)
    ensures Skip(Cursor(spki, 0)).Ok? && Enter(Skip(Cursor(spki, 0)).value) == Ok(Cursor([0] + key, 0))
    ensures KeyOf([0] + key) == Ok(key)
  {
    var post := bits.Raw() + rest;
    assert spki[0..] == spki && post[0..] == post;
    SkipThenEnter(spki, algorithm, bits, rest, post);
    KeyOfBits(key);
  }

  lemma {:induction false} KeyOfBits(key: seq<byte>)
    requires |key| == KEY_LEN
    ensures KeyOf([0] + key) == Ok(key)
  {
    assert ([0] + key)[1..] == key;
  }

  lemma {:induction false} SubjectIsRead(buf: seq<byte>, pos: nat, c: Shape)
    requires c.Accepted() && Holds(buf, pos, c.spki, c.tbsRest)
    ensures SubjectKey(Cursor(buf, pos)) == Ok(c.key)
  {
    EnterAt(buf, pos, c.spki, c.tbsRest);
    SpkiKey(c.spki.content, c.algorithm, c.bits, c.spkiRest, c.key);
  }

  lemma {:induction false} BothEntered(c: Shape)
    requires c.Accepted()
    ensures Enter(Cursor(c.Der(), 0)) == Ok(Cursor(c.outer.content, 0))
    ensures Enter(Cursor(c.outer.content, 0)) == Ok(Cursor(c.tbs.content, 0))
  {
    var der, cert := c.Der(), c.outer.content;
    assert der[0..] == der && cert[0..] == cert;
    EnterAt(der, 0, c.outer, c.trailing);
    EnterAt(cert, 0, c.tbs, c.outerRest);
  }

  lemma {:induction false} WalkComposes(der: seq<byte>, cert: Cursor, tbs: Cursor, serial: Cursor, at: Cursor)
    requires Enter(Cursor(der, 0)) == Ok(cert) && Enter(cert) == Ok(tbs)
    requires SkipOptional(tbs) == Ok(serial) && SkipFive(serial) == Ok(at)
    ensures SubjectKeyAt(der) == Ok(at)
  {
  }

  lemma {:induction false} SubjectIsFound(c: Shape)
    requires c.Accepted()
    ensures var post := c.spki.Raw() + c.tbsRest;
            && |post| <= |c.tbs.content| && c.tbs.content[|c.tbs.content| - |post|..] == post
            && SubjectKeyAt(c.Der()) == Ok(Cursor(c.tbs.content, |c.tbs.content| - |post|))
  {
    BothEntered(c);
    var (tbs, post) := (c.tbs.content, c.spki.Raw() + c.tbsRest);
    HeaderSkipped(tbs, c.fields, post);
    WalkComposes(c.Der(), Cursor(c.outer.content, 0), Cursor(tbs, 0), SkipOptional(Cursor(tbs, 0)).value,
                 Cursor(tbs, |tbs| - |post|));
  }

  lemma {:induction false} ShapeIsRead(c: Shape)
    requires c.Accepted()
    ensures ExtractKey(c.Der()) == Ok(c.key)
  {
    SubjectIsFound(c);
    SubjectIsRead(c.tbs.content, |c.tbs.content| - |c.spki.Raw() + c.tbsRest|, c);
  }

  lemma {:induction false} RawConcat(a: seq<Tlv>, b: seq<Tlv>)
    ensures RawAll(a + b) == RawAll(a) + RawAll(b)
  {
    if a == [] {
      assert a + b == b;
    } else {
      assert (a + b)[1..] == a[1..] + b;
      RawConcat(a[1..], b);
    }
  }

  lemma {:induction false} RawFirst(t: Tlv, ts: seq<Tlv>)
    ensures RawAll([t] + ts) == t.Raw() + RawAll(ts)
  {
    assert ([t] + ts)[1..] == ts;
  }

  /** The shape of a certificate, whatever its key algorithm. */
  function ShapeOf(c: Certificate): Shape {
    Shape(c.outer, c.tbs, c.Header(), c.spki, c.algorithm, c.bits, [], RawAll(c.extras),
          RawAll([c.signatureAlgorithm, c.signatureValue]), [], c.key)
  }

  lemma {:induction false} CertificateHasShape(c: Certificate, oid: seq<byte>)
    requires c.WellFormed(oid)
    ensures ShapeOf(c).Accepted() && ShapeOf(c).Der() == c.Der()
  {
    RawFirst(c.tbs, [c.signatureAlgorithm, c.signatureValue]);
    assert [c.tbs, c.signatureAlgorithm, c.signatureValue] == [c.tbs] + [c.signatureAlgorithm, c.signatureValue];
    RawConcat(c.Header(), [c.spki] + c.extras);
    RawFirst(c.spki, c.extras);
    RawFirst(c.algorithm, [c.bits]);
    RawFirst(c.bits, []);
    assert [c.algorithm, c.bits] == [c.algorithm] + [c.bits] && [c.bits] + [] == [c.bits];
    HeaderIsValid(c, oid);
  }

  lemma {:induction false} HeaderIsValid(c: Certificate, oid: seq<byte>)
    requires c.WellFormed(oid)
    ensures forall i :: 0 <= i < |c.Header()| ==> c.Header()[i].Valid()
    ensures |c.Header()| == (if c.version.Some? then 6 else 5)
    ensures c.Header()[0].tag == CONTEXT0 <==> c.version.Some?
  {
  }

  /** For every well-formed certificate the walk returns exactly the embedded key; for one of Ed25519 that is
      `c.WellFormed(ED25519)`, but the algorithm is never looked at. */
  lemma {:induction false} KeyIsFound(c: Certificate, oid: seq<byte>)
    requires c.WellFormed(oid)
    ensures ExtractKey(c.Der()) == Ok(c.key)
  {
    CertificateHasShape(c, oid);
    ShapeIsRead(ShapeOf(c));
  }

  // ---- And finds nothing else ----------------------------------------------------------------------

  /** The TLV a successful read found. */
  function TlvAt(c: Cursor): Tlv
    requires ReadTlv(c).Ok?
  {
    var (tag, s, e) := ReadTlv(c).value;
    Tlv(tag, c.buf[c.pos + 1..s], c.buf[s..e])
  }

  lemma {:induction false} ReadIsTlv(c: Cursor)
    requires ReadTlv(c).Ok?
    ensures TlvAt(c).Valid() && c.pos < ReadTlv(c).value.2 <= |c.buf|
    ensures TlvAt(c).Raw() == c.buf[c.pos..ReadTlv(c).value.2]
  {
    var (tag, s, e) := ReadTlv(c).value;
    var len := c.buf[c.pos + 1..s];
    assert len[0] == c.buf[c.pos + 1] && len[1..] == c.buf[c.pos + 2..s];
    assert c.buf[c.pos..e] == [tag] + len + c.buf[s..e];
  }

  /** What follows the TLV at the cursor. */
  function Behind(c: Cursor): seq<byte>
    requires ReadTlv(c).Ok?
  {
    c.buf[ReadTlv(c).value.2..]
  }

  /** Entering or skipping finds a valid TLV there, and the rest of the buffer behind it. */
  lemma {:induction false} Found(c: Cursor)
    requires ReadTlv(c).Ok?
    ensures TlvAt(c).Valid() && c.pos < |c.buf| && c.buf[c.pos..] == TlvAt(c).Raw() + Behind(c)
    ensures Enter(c) == Ok(Cursor(TlvAt(c).content, 0))
    ensures Skip(c).Ok? && Skip(c).value.buf == c.buf
    ensures Skip(c).value.pos <= |c.buf| && c.buf[Skip(c).value.pos..] == Behind(c)
  {
    ReadIsTlv(c);
    var e := ReadTlv(c).value.2;
    assert c.buf[c.pos..] == c.buf[c.pos..e] + c.buf[e..];
  }

  /** The buffer from one cursor to another is these TLVs. */
  ghost predicate Splits(c: Cursor, c': Cursor, ts: seq<Tlv>) {
    && (forall i :: 0 <= i < |ts| ==> ts[i].Valid())
    && c.pos <= |c.buf| && c'.buf == c.buf && c'.pos <= |c.buf|
    && c.buf[c.pos..] == RawAll(ts) + c.buf[c'.pos..]
  }

  lemma {:induction false} SplitsMore(c: Cursor, c1: Cursor, c2: Cursor, t: Tlv, ts: seq<Tlv>)
    requires Splits(c1, c2, ts) && t.Valid() && c.pos <= |c.buf| && c1.buf == c.buf
    requires c.buf[c.pos..] == t.Raw() + c.buf[c1.pos..]
    ensures Splits(c, c2, [t] + ts)
  {
    RawFirst(t, ts);
    Rejoin(t.Raw(), RawAll(ts), c.buf[c2.pos..]);
  }

  lemma {:induction false} Rejoin(a: seq<byte>, b: seq<byte>, c: seq<byte>)
    ensures a + (b + c) == (a + b) + c
  {
  }

  lemma {:induction false} SkippedAreTlvs(c: Cursor, n: nat) returns (ts: seq<Tlv>)
    requires SkipN(c, n).Ok? && c.pos <= |c.buf|
    ensures |ts| == n && Splits(c, SkipN(c, n).value, ts)
    decreases n
  {
    if n == 0 {
      ts := [];
    } else {
      SkipOne(c, n - 1);
      Found(c);
      var c1 := Skip(c).value;
      var rest := SkippedAreTlvs(c1, n - 1);
      SplitsMore(c, c1, SkipN(c1, n - 1).value, TlvAt(c), rest);
      ts := [TlvAt(c)] + rest;
    }
  }

  /** The two shapes of skipped header, as one count. */
  lemma {:induction false} HeaderCount(tbs: Cursor)
    requires tbs.pos == 0 && SkipOptional(tbs).Ok? && SkipFive(SkipOptional(tbs).value).Ok?
    ensures tbs.buf != []
    ensures var n := if tbs.buf[0] == CONTEXT0 then 6 else 5;
            SkipN(tbs, n) == SkipFive(SkipOptional(tbs).value)
  {
    SkipFiveIs(SkipOptional(tbs).value);
    SkipOne(tbs, 5);
  }

  ghost predicate IsSpki(spki: seq<byte>, algorithm: Tlv, bits: Tlv, rest: seq<byte>, key: seq<byte>) {
    && algorithm.Valid() && bits.Valid() && spki == algorithm.Raw() + (bits.Raw() + rest)
    && bits.content == [0] + key && |key| == KEY_LEN
  }

  lemma {:induction false} KeyIsContent(bits: seq<byte>)
    requires KeyOf(bits).Ok?
    ensures bits == [0] + KeyOf(bits).value && |KeyOf(bits).value| == KEY_LEN
  {
  }

  /** A field skipped and the next one entered. */
  lemma {:induction false} TwoFields(buf: seq<byte>)
    requires Skip(Cursor(buf, 0)).Ok? && Enter(Skip(Cursor(buf, 0)).value).Ok?
    ensures var (c, d) := (Cursor(buf, 0), Skip(Cursor(buf, 0)).value);
            && TlvAt(c).Valid() && TlvAt(d).Valid() && buf == TlvAt(c).Raw() + (TlvAt(d).Raw() + Behind(d))
            && Enter(d).value.buf == TlvAt(d).content
  {
    Found(Cursor(buf, 0));
    Found(Skip(Cursor(buf, 0)).value);
    assert buf[0..] == buf;
  }

  lemma {:induction false} SpkiShape(spki: seq<byte>)
    requires Skip(Cursor(spki, 0)).Ok? && Enter(Skip(Cursor(spki, 0)).value).Ok?
    requires KeyOf(Enter(Skip(Cursor(spki, 0)).value).value.buf).Ok?
    ensures exists a, b, rest :: IsSpki(spki, a, b, rest, KeyOf(Enter(Skip(Cursor(spki, 0)).value).value.buf).value)
  {
    TwoFields(spki);
    var d := Skip(Cursor(spki, 0)).value;
    KeyIsContent(TlvAt(d).content);
    assert IsSpki(spki, TlvAt(Cursor(spki, 0)), TlvAt(d), Behind(d), KeyOf(TlvAt(d).content).value);
  }

  ghost predicate IsTbs(tbs: seq<byte>, fields: seq<Tlv>, spki: Tlv, rest: seq<byte>) {
    && (forall i :: 0 <= i < |fields| ==> fields[i].Valid()) && spki.Valid()
    && ((|fields| == 6 && fields[0].tag == CONTEXT0) || (|fields| == 5 && fields[0].tag != CONTEXT0))
    && tbs == RawAll(fields) + (spki.Raw() + rest)
  }

  lemma {:induction false} TbsShape(tbs: seq<byte>)
    requires SkipOptional(Cursor(tbs, 0)).Ok? && SkipFive(SkipOptional(Cursor(tbs, 0)).value).Ok?
    requires Enter(SkipFive(SkipOptional(Cursor(tbs, 0)).value).value).Ok?
    ensures exists fields, spki, rest :: IsTbs(tbs, fields, spki, rest)
              && Enter(SkipFive(SkipOptional(Cursor(tbs, 0)).value).value).value.buf == spki.content
  {
    var c := Cursor(tbs, 0);
    HeaderCount(c);
    var n := if tbs[0] == CONTEXT0 then 6 else 5;
    var ts := SkippedAreTlvs(c, n);
    var d := SkipN(c, n).value;
    Found(d);
    assert tbs[0..] == tbs;
    assert tbs[0] == ts[0].tag by { assert tbs[0] == RawAll(ts)[0]; }
    assert IsTbs(tbs, ts, TlvAt(d), Behind(d));
  }

  /** Entered twice: an outer TLV whose content starts with an inner one. */
  ghost predicate IsNested(der: seq<byte>, outer: Tlv, tbs: Tlv, outerRest: seq<byte>, trailing: seq<byte>) {
    outer.Valid() && tbs.Valid() && der == outer.Raw() + trailing && outer.content == tbs.Raw() + outerRest
  }

  lemma {:induction false} NestedShape(der: seq<byte>)
    requires Enter(Cursor(der, 0)).Ok? && Enter(Enter(Cursor(der, 0)).value).Ok?
    ensures exists outer, tbs, outerRest, trailing :: IsNested(der, outer, tbs, outerRest, trailing)
              && Enter(Enter(Cursor(der, 0)).value).value == Cursor(tbs.content, 0)
  {
    var c0 := Cursor(der, 0);
    Found(c0);
    var cert := Enter(c0).value;
    Found(cert);
    assert der[0..] == der && cert.buf[0..] == cert.buf;
    assert IsNested(der, TlvAt(c0), TlvAt(cert), Behind(cert), Behind(c0));
  }

  lemma {:induction false} Assemble(der: seq<byte>, outer: Tlv, tbs: Tlv, outerRest: seq<byte>, trailing: seq<byte>,
                 fields: seq<Tlv>, spki: Tlv, tbsRest: seq<byte>,
                 algorithm: Tlv, bits: Tlv, spkiRest: seq<byte>, key: seq<byte>)
    requires IsNested(der, outer, tbs, outerRest, trailing) && IsTbs(tbs.content, fields, spki, tbsRest)
    requires IsSpki(spki.content, algorithm, bits, spkiRest, key)
    ensures exists c: Shape :: c.Accepted() && c.Der() == der && c.key == key
  {
    var c := Shape(outer, tbs, fields, spki, algorithm, bits, spkiRest, tbsRest, outerRest, trailing, key);
    assert c.Accepted() && c.Der() == der;
  }

  lemma {:induction false} SubjectShape(tbs: seq<byte>, at: Cursor, key: seq<byte>)
    requires SkipOptional(Cursor(tbs, 0)).Ok? && SkipFive(SkipOptional(Cursor(tbs, 0)).value) == Ok(at)
    requires SubjectKey(at) == Ok(key)
    ensures exists fields, spki, tbsRest, algorithm, bits, spkiRest ::
              IsTbs(tbs, fields, spki, tbsRest) && IsSpki(spki.content, algorithm, bits, spkiRest, key)
  {
    TbsShape(tbs);
    var fields, spki, tbsRest :| IsTbs(tbs, fields, spki, tbsRest)
      && Enter(SkipFive(SkipOptional(Cursor(tbs, 0)).value).value).value.buf == spki.content;
    SpkiShape(spki.content);
  }

  /** The walk returns a key exactly when the input has the accepted shape around that key. */
  lemma {:induction false} ExactlyShapes(der: seq<byte>, key: seq<byte>)
    ensures ExtractKey(der) == Ok(key) <==> exists c: Shape :: c.Accepted() && c.Der() == der && c.key == key
  {
    if ExtractKey(der) == Ok(key) { OnlyShapes(der, key); }
    if c: Shape :| c.Accepted() && c.Der() == der && c.key == key { ShapeIsRead(c); }
  }

  lemma {:induction false} OnlyShapes(der: seq<byte>, key: seq<byte>)
    requires ExtractKey(der) == Ok(key)
    ensures exists c: Shape :: c.Accepted() && c.Der() == der && c.key == key
  {
    NestedShape(der);
    var outer, tbs, outerRest, trailing :| IsNested(der, outer, tbs, outerRest, trailing)
      && Enter(Enter(Cursor(der, 0)).value).value == Cursor(tbs.content, 0);
    SubjectShape(tbs.content, SubjectKeyAt(der).value, key);
    var fields, spki, tbsRest, algorithm, bits, spkiRest :|
      IsTbs(tbs.content, fields, spki, tbsRest) && IsSpki(spki.content, algorithm, bits, spkiRest, key);
    Assemble(der, outer, tbs, outerRest, trailing, fields, spki, tbsRest, algorithm, bits, spkiRest, key);
  }

  // ---- Which is more than certificates -----------------------------------------------------------------

  /** OCTET STRINGs in place of every SEQUENCE and BIT STRING, NULLs in place of every skipped field. */
  function NoCertificate(): Shape {
    var nul := Tlv(0x05, [0], []);
    var zeros := seq(KEY_LEN, _ => 0);
    var bits := Tlv(0x04, [33], [0] + zeros);
    var spki := Tlv(0x04, [37], nul.Raw() + bits.Raw());
    var tbs := Tlv(0x04, [49], RawAll([nul, nul, nul, nul, nul]) + spki.Raw());
    Shape(Tlv(0x04, [51], tbs.Raw()), tbs, [nul, nul, nul, nul, nul], spki, nul, bits, [], [], [], [], zeros)
  }

  lemma {:induction false} TwoRaw(a: Tlv, b: Tlv)
    ensures |RawAll([a, b])| == |a.Raw()| + |b.Raw()|
  {
    RawFirst(a, [b]);
    RawFirst(b, []);
    assert [a] + [b] == [a, b] && [b] + [] == [b];
  }

  lemma {:induction false} ThreeRaw(a: Tlv, b: Tlv, c: Tlv)
    ensures |RawAll([a, b, c])| == |a.Raw()| + |b.Raw()| + |c.Raw()|
  {
    RawFirst(a, [b, c]);
    TwoRaw(b, c);
    assert [a] + [b, c] == [a, b, c];
  }

  lemma {:induction false} FiveRaw(a: Tlv, b: Tlv)
    ensures |RawAll([a, b, b, b, b])| == |a.Raw()| + 4 * |b.Raw()|
  {
    ThreeRaw(a, b, b);
    TwoRaw(b, b);
    RawConcat([a, b, b], [b, b]);
    assert [a, b, b] + [b, b] == [a, b, b, b, b];
  }

  lemma {:induction false} NoCertificateIsAccepted()
    ensures NoCertificate().Accepted()
  {
    var c := NoCertificate();
    FiveRaw(c.algorithm, c.algorithm);
    assert c.algorithm.Raw() + (c.bits.Raw() + []) == c.algorithm.Raw() + c.bits.Raw();
    assert RawAll(c.fields) + (c.spki.Raw() + []) == RawAll(c.fields) + c.spki.Raw();
    assert c.tbs.Raw() + [] == c.tbs.Raw();
  }

  /** The walk does not reject everything that is no Ed25519 certificate: it reads a key out of this input, which is
      no certificate of any algorithm. */
  lemma {:induction false} NotOnlyCertificates()
    ensures ExtractKey(NoCertificate().Der()) == Ok(NoCertificate().key)
    ensures forall c: Certificate, oid :: c.WellFormed(oid) ==> c.Der() != NoCertificate().Der()
  {
    NoCertificateIsAccepted();
    ShapeIsRead(NoCertificate());
    assert NoCertificate().Der()[0] == 0x04;
    forall c: Certificate, oid | c.WellFormed(oid) ensures c.Der() != NoCertificate().Der() {
      assert c.Der()[0] == SEQUENCE;
    }
  }

  /** The smallest certificate around a key, for an algorithm identifier of five octets. */
  function Smallest(key: seq<byte>, oid: seq<byte>): Certificate {
    var (empty, serial) := (Tlv(SEQUENCE, [0], []), Tlv(INTEGER, [1], [1]));
    var (algorithm, bits) := (Tlv(SEQUENCE, [5], oid), Tlv(BIT_STRING, [33], [0] + key));
    var spki := Tlv(SEQUENCE, [42], RawAll([algorithm, bits]));
    var tbs := Tlv(SEQUENCE, [55], RawAll([serial, empty, empty, empty, empty] + ([spki] + [])));
    var value := Tlv(BIT_STRING, [1], [0]);
    Certificate(Tlv(SEQUENCE, [62], RawAll([tbs, empty, value])), tbs, None, serial, empty, empty, empty, empty,
                spki, algorithm, bits, [], empty, value, key)
  }

  lemma {:induction false} SmallestTbs(c: Certificate)
    requires c.version == None && c.extras == [] && c.signature == c.issuer == c.validity == c.subject
    ensures |RawAll(c.Header() + ([c.spki] + c.extras))| == |c.serial.Raw()| + 4 * |c.issuer.Raw()| + |c.spki.Raw()|
  {
    var header := [c.serial, c.issuer, c.issuer, c.issuer, c.issuer];
    assert c.Header() == header;
    FiveRaw(c.serial, c.issuer);
    RawConcat(header, [c.spki] + []);
    RawFirst(c.spki, []);
  }

  lemma {:induction false} SmallestIsWellFormed(key: seq<byte>, oid: seq<byte>)
    requires |key| == KEY_LEN && |oid| == 5
    ensures Smallest(key, oid).WellFormed(oid)
  {
    var c := Smallest(key, oid);
    TwoRaw(c.algorithm, c.bits);
    SmallestTbs(c);
    assert c.Header() == [c.serial, c.issuer, c.issuer, c.issuer, c.issuer];
    ThreeRaw(c.tbs, c.issuer, c.signatureValue);
  }

  /** id-X25519 of section 3 of RFC 8410: a key agreement algorithm, no signature key. */
  const X25519: seq<byte> := [0x06, 0x03, 0x2B, 0x65, 0x6E]

  /** Certificates of another algorithm are read as well, for every key. */
  lemma {:induction false} OtherAlgorithmsAreRead(key: seq<byte>)
    requires |key| == KEY_LEN
    ensures Smallest(key, X25519).WellFormed(X25519) && ExtractKey(Smallest(key, X25519).Der()) == Ok(key)
    ensures Smallest(key, ED25519).WellFormed(ED25519) && ExtractKey(Smallest(key, ED25519).Der()) == Ok(key)
  {
    SmallestIsWellFormed(key, X25519);
    SmallestIsWellFormed(key, ED25519);
    KeyIsFound(Smallest(key, X25519), X25519);
    KeyIsFound(Smallest(key, ED25519), ED25519);
  }
}
