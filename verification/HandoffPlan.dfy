/**
 KHP1: the plan of one update as a length-prefixed file, and the checks on its fields.

 This is the POSIX build of the parser.  Field numbers are those of the format.
 */
module HandoffPlan {
  import opened Bytes
  import opened Paths
  import opened Utf8

  const MAX_BYTES: nat := 64 * 1024
  const MAX_SAFE_INTEGER: nat := 9007199254740991
  const MAX_INT32: nat := 2147483647

  /** A plan is its version and its fields, in the order of the format. */
  datatype Plan = Plan(version: nat, fields: seq<seq<Byte>>)

  // -------------------------------------------------------------------- encoding

  const MAGIC: seq<Byte> := [75, 72, 80, 49]

  function Two(n: nat): (b: seq<Byte>)
    requires n < 0x1_0000
    ensures |b| == 2
  {
    [n % 256, n / 256]
  }

  function ReadTwo(low: Byte, high: Byte): nat {
    low + 256 * (high as int)
  }

  function EncodeField(field: seq<Byte>): seq<Byte> {
    LittleEndian(|field|) + field
  }

  function EncodeFields(fields: seq<seq<Byte>>): seq<Byte> {
    if fields == [] then [] else EncodeField(fields[0]) + EncodeFields(fields[1..])
  }

  function Header(version: nat, count: nat): (h: seq<Byte>)
    requires version < 0x1_0000 && count < 0x1_0000
    ensures |h| == 8
  {
    MAGIC + Two(version) + Two(count)
  }

  predicate KnownShape(version: nat, count: nat) {
    (version == 2 && count == 32) || (version == 3 && count == 37)
  }

  ghost predicate FieldOk(field: seq<Byte>) {
    0 < |field| <= MAX_BYTES && 0 !in field && Octets(field)
  }

  ghost predicate FieldsOk(fields: seq<seq<Byte>>) {
    forall i | 0 <= i < |fields| :: FieldOk(fields[i])
  }

  function Encode(plan: Plan): seq<Byte>
    requires KnownShape(plan.version, |plan.fields|)
  {
    Header(plan.version, |plan.fields|) + EncodeFields(plan.fields)
  }

  /** A plan that may be written: shape, fields and size of the file are within the format. */
  ghost predicate Encodable(plan: Plan) {
    && KnownShape(plan.version, |plan.fields|)
    && FieldsOk(plan.fields)
    && |Encode(plan)| <= MAX_BYTES
  }

  lemma FieldIsAtFront(fields: seq<seq<Byte>>, rest: seq<Byte>)
    requires fields != [] && FieldsOk(fields) && EncodeFields(fields) == rest
    ensures var n := |fields[0]|;
            && |rest| >= 4 + n && Assemble(rest[..4]) == n
            && rest[4..4 + n] == fields[0] && rest[4 + n..] == EncodeFields(fields[1..])
  {
    hide LittleEndian, Assemble, FieldOk;
    var n := |fields[0]|;
    assert FieldOk(fields[0]);
    FieldIsShort(fields[0]);
    Reassembled(n);
    assert rest[..4] == LittleEndian(n);
  }

  lemma FieldIsShort(field: seq<Byte>)
    requires FieldOk(field)
    ensures |field| < 0x1_0000_0000
  {
  }

  lemma FirstField(fields: seq<seq<Byte>>)
    requires fields != [] && FieldsOk(fields)
    ensures FieldOk(fields[0]) && FieldsOk(fields[1..])
    ensures EncodeFields(fields) == EncodeField(fields[0]) + EncodeFields(fields[1..])
  {
    hide FieldOk, EncodeField;
  }

  lemma ThenRest(first: seq<Byte>, fields: seq<Byte>, rest: seq<Byte>)
    ensures first + fields + rest == first + (fields + rest)
  {
  }

  lemma RestIsShifted(all: seq<seq<Byte>>, n: nat)
    requires 0 < n <= |all|
    ensures all[..n] == [all[0]] + all[1..][..n - 1] && all[n..] == all[1..][n - 1..]
  {
  }

  /** An encoding that begins with the given fields continues with the encoding of the others. */
  lemma {:induction false} PrefixAgrees(fields: seq<seq<Byte>>, all: seq<seq<Byte>>, rest: seq<Byte>)
    requires FieldsOk(fields) && FieldsOk(all) && |fields| <= |all|
    requires EncodeFields(all) == EncodeFields(fields) + rest
    ensures all[..|fields|] == fields && EncodeFields(all[|fields|..]) == rest
  {
    if fields == [] {
      assert all[0..] == all;
      assert EncodeFields([]) + rest == rest;
    } else {
      hide EncodeField, EncodeFields, FieldOk, FieldsOk;
      FirstField(fields);
      FirstField(all);
      ThenRest(EncodeField(fields[0]), EncodeFields(fields[1..]), rest);
      FrontIsDetermined(fields[0], all[0], EncodeFields(fields[1..]) + rest, EncodeFields(all[1..]));
      PrefixAgrees(fields[1..], all[1..], rest);
      RestIsShifted(all, |fields|);
      assert fields == [fields[0]] + fields[1..];
    }
  }

  lemma FrontIsDetermined(f: seq<Byte>, g: seq<Byte>, s: seq<Byte>, t: seq<Byte>)
    requires FieldOk(f) && FieldOk(g)
    requires EncodeField(f) + s == EncodeField(g) + t
    ensures f == g && s == t
  {
    hide LittleEndian;
    var whole := EncodeField(f) + s;
    assert whole[..4] == LittleEndian(|f|) && whole[..4] == LittleEndian(|g|);
    LittleEndianIsInjective(|f|, |g|);
    assert whole[4..4 + |f|] == f && whole[4..4 + |f|] == g;
    assert whole[4 + |f|..] == s && whole[4 + |f|..] == t;
  }

  lemma {:induction false} EncodeFieldsSnoc(fields: seq<seq<Byte>>, field: seq<Byte>)
    ensures EncodeFields(fields + [field]) == EncodeFields(fields) + EncodeField(field)
  {
    hide EncodeField;
    if fields == [] {
      assert fields + [field] == [field];
      assert EncodeFields([field]) == EncodeField(field) + EncodeFields([]);
    } else {
      EncodeFieldsSnoc(fields[1..], field);
      assert (fields + [field])[1..] == fields[1..] + [field];
      assert EncodeFields(fields) == EncodeField(fields[0]) + EncodeFields(fields[1..]);
    }
  }

  /** Different plans have different files. */
  lemma EncodingIsInjective(a: Plan, b: Plan)
    requires Encodable(a) && Encodable(b) && Encode(a) == Encode(b)
    ensures a == b
  {
    hide EncodeFields, FieldsOk;
    ShapeIsWritten(a);
    ShapeIsWritten(b);
    assert EncodeFields(b.fields) + [] == EncodeFields(b.fields);
    PrefixAgrees(b.fields, a.fields, []);
    assert a.fields[..|b.fields|] == a.fields;
  }

  /** The fifth byte of a file tells the version, and with it the number of fields. */
  lemma ShapeIsWritten(plan: Plan)
    requires KnownShape(plan.version, |plan.fields|)
    ensures |Encode(plan)| >= 8 && Encode(plan)[8..] == EncodeFields(plan.fields)
    ensures Encode(plan)[4] == plan.version
  {
    hide EncodeFields;
    assert Encode(plan)[4] == Header(plan.version, |plan.fields|)[4] == Two(plan.version)[0];
  }

  // --------------------------------------------------------------------- decimals

  predicate Digit(b: Byte) {
    48 <= b <= 57
  }

  predicate IsDecimal(value: seq<Byte>) {
    && 1 <= |value| <= 16
    && (|value| > 1 ==> value[0] != 48)
    && forall i | 0 <= i < |value| :: Digit(value[i])
  }

  /** The number that a string of digits denotes. */
  function Numeral(value: seq<Byte>): nat
    requires forall i | 0 <= i < |value| :: Digit(value[i])
  {
    if value == [] then 0
    else
      assert Digit(value[|value| - 1]);
      10 * Numeral(value[..|value| - 1]) + (value[|value| - 1] as int - 48)
  }

  /** The digit loop never exceeds the maximum on the way, so it cannot wrap. */
  method DecimalValue(value: seq<Byte>, maximum: nat) returns (ok: bool, result: nat)
    requires 9 <= maximum
    ensures ok <==> IsDecimal(value) && Numeral(value) <= maximum
    ensures ok ==> result == Numeral(value)
  {
    if !IsDecimal(value) { return false, 0; }
    var parsed := 0;
    for index := 0 to |value|
      invariant parsed == Numeral(value[..index]) <= maximum
    {
      assert value[..index + 1][..index] == value[..index];
      var digit := value[index] as int - 48;
      if parsed > (maximum - digit) / 10 {
        NumeralGrows(value, index + 1);
        return false, 0;
      }
      parsed := parsed * 10 + digit;
    }
    assert value[..|value|] == value;
    ok, result := true, parsed;
  }

  lemma {:induction false} NumeralGrows(value: seq<Byte>, k: nat)
    requires k <= |value| && forall i | 0 <= i < |value| :: Digit(value[i])
    ensures Numeral(value[..k]) <= Numeral(value)
  {
    if k < |value| {
      var shorter := value[..|value| - 1];
      assert shorter[..k] == value[..k];
      NumeralGrows(shorter, k);
    } else {
      assert value[..k] == value;
    }
  }

  /** A number has one decimal form only. */
  lemma {:induction false} DecimalFormIsUnique(a: seq<Byte>, b: seq<Byte>)
    requires IsDecimal(a) && IsDecimal(b) && Numeral(a) == Numeral(b)
    ensures a == b
  {
    LeadingDigit(a);
    LeadingDigit(b);
    var p, q := a[..|a| - 1], b[..|b| - 1];
    assert a == p + [a[|a| - 1]] && b == q + [b[|b| - 1]];
    if |a| > 1 && |b| > 1 {
      DecimalFormIsUnique(p, q);
    }
  }

  /** Only "0" denotes zero, and only single digits denote less than ten. */
  lemma {:induction false} LeadingDigit(a: seq<Byte>)
    requires IsDecimal(a)
    ensures |a| > 1 ==> Numeral(a[..|a| - 1]) >= 1 && Numeral(a) >= 10
    ensures |a| == 1 ==> Numeral(a) == a[0] - 48
  {
    var front := a[..|a| - 1];
    if |a| > 1 {
      LeadingDigit(front);
      assert front[0] != 48;
    } else {
      assert front == [];
    }
  }

  // ----------------------------------------------------------------------- fields

  predicate LowerHex(value: seq<Byte>, length: nat) {
    |value| == length && forall i | 0 <= i < |value| :: Digit(value[i]) || 97 <= value[i] <= 102
  }

  predicate AlphaNumeric(b: Byte) {
    65 <= b <= 90 || 97 <= b <= 122 || Digit(b)
  }

  /** Letters, digits and ". _ : -", beginning with a letter or a digit. */
  predicate BoundedId(value: seq<Byte>) {
    && 1 <= |value| <= 128 && AlphaNumeric(value[0])
    && forall i | 0 <= i < |value| :: AlphaNumeric(value[i]) || value[i] in {46, 95, 58, 45}
  }

  /** Letters, digits and ". + -", beginning with a letter or a digit. */
  predicate IsVersion(value: seq<Byte>) {
    && 1 <= |value| <= 64 && AlphaNumeric(value[0])
    && forall i | 0 <= i < |value| :: AlphaNumeric(value[i]) || value[i] in {46, 43, 45}
  }

  const PRESENT: seq<Byte> := [112, 114, 101, 115, 101, 110, 116]
  const ABSENT: seq<Byte> := [97, 98, 115, 101, 110, 116]
  const LOOPBACK: seq<Byte> := [49, 50, 55, 46, 48, 46, 48, 46, 49]

  function TopologyOf(fields: seq<seq<Byte>>): Topology
    requires |fields| == 32
  {
    Topology(fields[14], fields[15], fields[16], fields[17], fields[18], fields[19], fields[2], fields[0])
  }

  predicate Bounded(value: seq<Byte>, maximum: nat) {
    IsDecimal(value) && 1 <= Numeral(value) <= maximum
  }

  /** The identities and the old process. */
  predicate IdentitiesValid(fields: seq<seq<Byte>>, target: seq<Byte>)
    requires |fields| == 32
  {
    && LowerHex(fields[0], 32) && BoundedId(fields[1]) && BoundedId(fields[2])
    && fields[3] == target && IsVersion(fields[4])
    && BoundedId(fields[5]) && BoundedId(fields[6])
    && fields[6] != fields[5] && fields[6] != fields[10]
    && Bounded(fields[7], MAX_SAFE_INTEGER)
    && (fields[8] == PRESENT || fields[8] == ABSENT)
    && Bounded(fields[9], MAX_INT32) && BoundedId(fields[10]) && fields[11] == LOOPBACK
    && Bounded(fields[12], 65535) && IsVersion(fields[13])
  }

  predicate DigestsValid(fields: seq<seq<Byte>>)
    requires |fields| == 32
  {
    forall i | 20 <= i <= 27 :: LowerHex(fields[i], 64)
  }

  /** Four deadlines, strictly one after the other. */
  predicate DeadlinesValid(fields: seq<seq<Byte>>)
    requires |fields| == 32
  {
    && (forall i | 28 <= i <= 31 :: Bounded(fields[i], MAX_SAFE_INTEGER))
    && Numeral(fields[28]) < Numeral(fields[29]) < Numeral(fields[30]) < Numeral(fields[31])
  }

  predicate PathsValid(fields: seq<seq<Byte>>)
    requires |fields| == 32
  {
    (forall i | 14 <= i <= 19 :: Canonical(fields[i])) && TopologyHolds(TopologyOf(fields))
  }

  predicate Valid(plan: Plan, target: seq<Byte>) {
    && plan.version == 2 && |plan.fields| == 32
    && IdentitiesValid(plan.fields, target) && DigestsValid(plan.fields)
    && DeadlinesValid(plan.fields) && PathsValid(plan.fields)
  }

  // ------------------------------------------------------------------- validation

  method InRange(value: seq<Byte>, maximum: nat) returns (ok: bool, number: nat)
    requires 9 <= maximum
    ensures ok <==> Bounded(value, maximum)
    ensures ok ==> number == Numeral(value)
  {
    ok, number := DecimalValue(value, maximum);
    ok := ok && number >= 1;
  }

  method CheckIdentities(fields: seq<seq<Byte>>, target: seq<Byte>) returns (ok: bool)
    requires |fields| == 32
    ensures ok <==> IdentitiesValid(fields, target)
  {
    hide IsDecimal, LowerHex, BoundedId, IsVersion, Numeral, Bounded;
    ok := LowerHex(fields[0], 32) && BoundedId(fields[1]) && BoundedId(fields[2])
          && fields[3] == target && IsVersion(fields[4]) && BoundedId(fields[5]) && BoundedId(fields[6])
          && fields[6] != fields[5] && fields[6] != fields[10];
    if !ok { return; }
    var revision, process, port;
    ok, revision := InRange(fields[7], MAX_SAFE_INTEGER);
    if !ok || (fields[8] != PRESENT && fields[8] != ABSENT) { return false; }
    ok, process := InRange(fields[9], MAX_INT32);
    if !ok || !BoundedId(fields[10]) || fields[11] != LOOPBACK { return false; }
    ok, port := InRange(fields[12], 65535);
    ok := ok && IsVersion(fields[13]);
  }

  method CheckDeadlines(fields: seq<seq<Byte>>) returns (ok: bool)
    requires |fields| == 32
    ensures ok <==> DeadlinesValid(fields)
  {
    var first, second, third, last;
    ok, first := InRange(fields[28], MAX_SAFE_INTEGER);
    if !ok { return; }
    ok, second := InRange(fields[29], MAX_SAFE_INTEGER);
    if !ok { return; }
    ok, third := InRange(fields[30], MAX_SAFE_INTEGER);
    if !ok { return; }
    ok, last := InRange(fields[31], MAX_SAFE_INTEGER);
    ok := ok && first < second < third < last;
  }

  method CheckPaths(fields: seq<seq<Byte>>) returns (ok: bool)
    requires |fields| == 32 && forall i | 0 <= i < 32 :: 0 !in fields[i]
    ensures ok <==> PathsValid(fields)
  {
    hide Canonical, TopologyHolds;
    for index := 14 to 20
      invariant forall i | 14 <= i < index :: Canonical(fields[i])
    {
      ok := IsAbsoluteCanonicalPath(fields[index]);
      if !ok { return; }
    }
    ok := TopologyValid(TopologyOf(fields));
  }

  method FieldsValid(plan: Plan, target: seq<Byte>) returns (ok: bool)
    requires KnownShape(plan.version, |plan.fields|) && forall i | 0 <= i < |plan.fields| :: 0 !in plan.fields[i]
    ensures ok <==> Valid(plan, target)
  {
    hide IdentitiesValid, DeadlinesValid, PathsValid, LowerHex;
    if plan.version != 2 { return false; }
    ok := CheckIdentities(plan.fields, target);
    if !ok { return; }
    for index := 20 to 28
      invariant forall i | 20 <= i < index :: LowerHex(plan.fields[i], 64)
    {
      if !LowerHex(plan.fields[index], 64) { return false; }
    }
    ok := CheckDeadlines(plan.fields);
    if !ok { return; }
    ok := CheckPaths(plan.fields);
  }

  // ---------------------------------------------------------------------- parsing

  /** The file begins with a complete, well-formed field. */
  ghost predicate FieldAt(rest: seq<Byte>) {
    && |rest| >= 4
    && var n := Assemble(rest[..4]);
       |rest| - 4 >= n && FieldOk(rest[4..4 + n])
  }

  /** One field: its length, its bytes and their encoding; nothing beyond `rest` is read. */
  method ReadField(rest: seq<Byte>) returns (ok: bool, field: seq<Byte>)
    ensures ok <==> FieldAt(rest)
    ensures ok ==> FieldOk(field) && |rest| >= 4 + |field| && rest == EncodeField(field) + rest[4 + |field|..]
  {
    hide LittleEndian, Assemble, Octets;
    if |rest| < 4 { return false, []; }
    var n := Assemble(rest[..4]);
    if n == 0 || n > MAX_BYTES || |rest| - 4 < n { return false, []; }
    field := rest[4..4 + n];
    if 0 in field { return false, field; }
    ok := IsUtf8(field);
    Disassembled(rest[..4]);
    assert rest == rest[..4] + field + rest[4 + n..];
  }

  /** What has been read: the file begins with these fields, and `rest` is still to be read. */
  ghost predicate ReadSoFar(code: seq<Byte>, fields: seq<seq<Byte>>, rest: seq<Byte>) {
    FieldsOk(fields) && code == EncodeFields(fields) + rest
  }

  /** No list of so many fields has this encoding. */
  ghost predicate Undecodable(code: seq<Byte>, count: nat) {
    forall all | |all| == count && FieldsOk(all) :: EncodeFields(all) != code
  }

  lemma NothingRead(code: seq<Byte>)
    ensures ReadSoFar(code, [], code)
  {
  }

  lemma OneFieldMore(code: seq<Byte>, fields: seq<seq<Byte>>, field: seq<Byte>, rest: seq<Byte>)
    requires FieldOk(field) && ReadSoFar(code, fields, EncodeField(field) + rest)
    ensures ReadSoFar(code, fields + [field], rest)
  {
    hide FieldOk, EncodeField;
    EncodeFieldsSnoc(fields, field);
    ThenRest(EncodeFields(fields), EncodeField(field), rest);
  }

  /** Where the next field is not well-formed, no list of fields encodes to the file. */
  lemma NoDecoding(code: seq<Byte>, fields: seq<seq<Byte>>, rest: seq<Byte>, count: nat)
    requires ReadSoFar(code, fields, rest) && |fields| < count && !FieldAt(rest)
    ensures Undecodable(code, count)
  {
    hide FieldsOk, EncodeFields, FieldAt;
    forall all | |all| == count && FieldsOk(all)
      ensures EncodeFields(all) != code
    {
      if EncodeFields(all) == code { NextFieldIsThere(fields, rest, all); }
    }
  }

  lemma NextFieldIsThere(fields: seq<seq<Byte>>, rest: seq<Byte>, all: seq<seq<Byte>>)
    requires FieldsOk(fields) && FieldsOk(all) && |fields| < |all|
    requires EncodeFields(all) == EncodeFields(fields) + rest
    ensures FieldAt(rest)
  {
    hide FieldOk, EncodeFields;
    PrefixAgrees(fields, all, rest);
    FieldIsAtFront(all[|fields|..], rest);
  }

  /** All fields have been read; they are the only ones, and they are the whole file or none is. */
  lemma DecodingIsUnique(code: seq<Byte>, fields: seq<seq<Byte>>, rest: seq<Byte>)
    requires ReadSoFar(code, fields, rest)
    ensures rest == [] ==> FieldsOk(fields) && EncodeFields(fields) == code
    ensures rest != [] ==> Undecodable(code, |fields|)
  {
    hide FieldsOk, EncodeFields;
    if rest == [] {
      assert EncodeFields(fields) + [] == EncodeFields(fields);
    } else {
      forall all | |all| == |fields| && FieldsOk(all)
        ensures EncodeFields(all) != code
      {
        if EncodeFields(all) == code { NothingIsLeft(fields, rest, all); }
      }
    }
  }

  lemma NothingIsLeft(fields: seq<seq<Byte>>, rest: seq<Byte>, all: seq<seq<Byte>>)
    requires FieldsOk(fields) && FieldsOk(all) && |fields| == |all|
    requires EncodeFields(all) == EncodeFields(fields) + rest
    ensures rest == []
  {
    PrefixAgrees(fields, all, rest);
    assert all[|all|..] == [];
  }

  /** The field loop, for as many fields as the header announces. */
  method ParseFields(code: seq<Byte>, count: nat) returns (ok: bool, fields: seq<seq<Byte>>)
    ensures ok ==> |fields| == count && FieldsOk(fields) && EncodeFields(fields) == code
    ensures !ok ==> Undecodable(code, count)
  {
    hide FieldOk, FieldsOk, EncodeField, EncodeFields, FieldAt, ReadSoFar, Undecodable;
    fields := [];
    var offset := 0;
    assert code[0..] == code;
    NothingRead(code);
    while |fields| < count
      invariant |fields| <= count && 0 <= offset <= |code|
      invariant ReadSoFar(code, fields, code[offset..])
      decreases count - |fields|
    {
      ghost var rest := code[offset..];
      var field;
      ok, field := ReadField(code[offset..]);
      if !ok {
        NoDecoding(code, fields, rest, count);
        return;
      }
      OneFieldMore(code, fields, field, rest[4 + |field|..]);
      fields := fields + [field];
      offset := offset + 4 + |field|;
      assert rest[4 + |field|..] == code[offset..];
    }
    DecodingIsUnique(code, fields, code[offset..]);
    ok := offset == |code|;
    if ok { assert code[offset..] == []; }
  }

  lemma HeaderIsRead(content: seq<Byte>, version: nat, count: nat)
    requires |content| >= 8 && version < 0x1_0000 && count < 0x1_0000
    ensures content[..8] == Header(version, count) <==>
              && content[..4] == MAGIC
              && ReadTwo(content[4], content[5]) == version && ReadTwo(content[6], content[7]) == count
  {
    TwoIsRead(content[4], content[5], version);
    TwoIsRead(content[6], content[7], count);
    var h := Header(version, count);
    assert h[..4] == MAGIC && h[4..6] == Two(version) && h[6..8] == Two(count);
    assert content[..8] == content[..4] + [content[4], content[5]] + [content[6], content[7]];
    assert content[..8][..4] == content[..4];
    assert content[..8][4..6] == [content[4], content[5]] && content[..8][6..8] == [content[6], content[7]];
  }

  lemma TwoIsRead(low: Byte, high: Byte, n: nat)
    requires n < 0x1_0000
    ensures ReadTwo(low, high) == n <==> Two(n) == [low, high]
  {
    if ReadTwo(low, high) == n { assert n / 256 == high && n % 256 == low; }
    if Two(n) == [low, high] { assert Two(n)[0] == low && Two(n)[1] == high; }
  }

  /**
   The parser is the exact inverse of the encoding: it accepts a byte string if and only if that
   is the file of some valid plan, and it returns that plan.
   */
  method Parse(content: seq<Byte>, target: seq<Byte>) returns (ok: bool, plan: Plan)
    ensures ok ==> Encodable(plan) && Valid(plan, target) && Encode(plan) == content
    ensures !ok ==> forall p | Encodable(p) && Valid(p, target) :: Encode(p) != content
  {
    hide Valid, FieldsOk, Header;
    plan := Plan(0, []);
    if |content| < 8 || |content| > MAX_BYTES || content[..4] != MAGIC {
      forall p | Encodable(p) ensures Encode(p) != content { FileHasHeader(p, content); }
      return false, plan;
    }
    var version, count := ReadTwo(content[4], content[5]), ReadTwo(content[6], content[7]);
    if !KnownShape(version, count) {
      forall p | Encodable(p) ensures Encode(p) != content { FileHasHeader(p, content); }
      return false, plan;
    }
    HeaderIsRead(content, version, count);
    var fields;
    ok, fields := ParseFields(content[8..], count);
    if !ok {
      forall p | Encodable(p) ensures Encode(p) != content { FileHasHeader(p, content); }
      return;
    }
    plan := Plan(version, fields);
    assert Encode(plan) == content[..8] + content[8..] == content;
    NulFreeFields(fields);
    ok := FieldsValid(plan, target);
    if !ok {
      forall p | Encodable(p) && Valid(p, target)
        ensures Encode(p) != content
      {
        if Encode(p) == content { EncodingIsInjective(p, plan); }
      }
    }
  }

  lemma NulFreeFields(fields: seq<seq<Byte>>)
    requires FieldsOk(fields)
    ensures forall i | 0 <= i < |fields| :: 0 !in fields[i]
  {
    forall i | 0 <= i < |fields| ensures 0 !in fields[i] { assert FieldOk(fields[i]); }
  }

  lemma FileHasHeader(p: Plan, content: seq<Byte>)
    requires Encodable(p)
    ensures Encode(p) == content ==>
              && 8 <= |content| <= MAX_BYTES && content[..4] == MAGIC
              && ReadTwo(content[4], content[5]) == p.version && ReadTwo(content[6], content[7]) == |p.fields|
              && FieldsOk(p.fields) && EncodeFields(p.fields) == content[8..]
  {
    if Encode(p) == content {
      assert content[..8] == Header(p.version, |p.fields|);
      HeaderIsRead(content, p.version, |p.fields|);
      assert content[8..] == EncodeFields(p.fields);
    }
  }

  /** Reading back what was written. */
  method ParseEncoded(plan: Plan, target: seq<Byte>) returns (read: Plan)
    requires Encodable(plan) && Valid(plan, target)
    ensures read == plan
  {
    var ok;
    ok, read := Parse(Encode(plan), target);
    EncodingIsInjective(read, plan);
  }

  /** Every accepted plan keeps what is removed apart from what is kept, unless the managed root is misnamed. */
  lemma AcceptedPlansAreSeparated(plan: Plan, target: seq<Byte>)
    requires Valid(plan, target)
    ensures var t := TopologyOf(plan.fields);
            && Separate(t.stage, t.backup) && Separate(t.candidate, t.backup) && StrictlyInside(t.candidate, t.stage)
            && |Components(t.managed)| >= 2
            && (Separate(t.managed, t.stage) && Separate(t.managed, t.backup) <==>
                  Leaf(t.managed) != UPDATES && Leaf(t.managed) != PREVIOUS + t.activationId)
  {
    hide TopologyHolds, Canonical, Separate, StrictlyInside, DeadlinesValid, DigestsValid;
    var t := TopologyOf(plan.fields);
    IdsHaveNoSlash(plan, target);
    TopologyIsSeparated(t);
  }

  /** Whether the three slots of an update are separate trees depends on the managed root's name alone. */
  lemma PlanSlotsAreSeparate(plan: Plan, target: seq<Byte>)
    requires Valid(plan, target)
    ensures var t := TopologyOf(plan.fields);
            && |Components(t.managed)| >= 2
            && (Separate(t.managed, t.candidate) && Separate(t.managed, t.backup) && Separate(t.candidate, t.backup)
                <==> Leaf(t.managed) != UPDATES && Leaf(t.managed) != PREVIOUS + t.activationId)
  {
    hide TopologyHolds, Canonical, Separate, DeadlinesValid, DigestsValid;
    var t := TopologyOf(plan.fields);
    IdsHaveNoSlash(plan, target);
    SlotsAreSeparate(t);
  }

  /** With every accepted plan the same plan is accepted whose managed root is the backup. */
  lemma MisnamedPlanIsAccepted(plan: Plan, target: seq<Byte>)
    requires Valid(plan, target)
    ensures var misnamed := Plan(2, plan.fields[14 := plan.fields[17]]);
            Valid(misnamed, target) && TopologyOf(misnamed.fields).managed == TopologyOf(misnamed.fields).backup
  {
    hide TopologyHolds, Canonical, LowerHex, BoundedId, IsVersion, Bounded, Numeral;
    var t := TopologyOf(plan.fields);
    IdsHaveNoSlash(plan, target);
    MisnamedRootIsAccepted(t);
    assert TopologyOf(plan.fields[14 := plan.fields[17]]) == t.(managed := t.backup);
  }

  lemma IdsHaveNoSlash(plan: Plan, target: seq<Byte>)
    requires Valid(plan, target)
    ensures SLASH !in plan.fields[2] && SLASH !in plan.fields[0]
  {
    hide DeadlinesValid, DigestsValid, PathsValid;
  }
}
