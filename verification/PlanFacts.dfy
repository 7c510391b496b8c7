/**
 What acceptance of a plan amounts to, field by field, and one plan that is accepted.
 */
module PlanFacts {
  import opened Bytes
  import opened Paths
  import Utf8
  import opened HandoffPlan

  // ---------------------------------------------------------------- accepted plans

  predicate HexDigits(text: seq<Byte>) {
    forall i | 0 <= i < |text| :: '0' as int <= text[i] <= '9' as int || 'a' as int <= text[i] <= 'f' as int
  }

  lemma LowerHexIsHexDigits(text: seq<Byte>, length: nat)
    ensures LowerHex(text, length) <==> |text| == length && HexDigits(text)
  {
  }

  /** The application is reached on the loopback address only, and under a port that exists. */
  lemma AcceptedAddress(plan: Plan, target: seq<Byte>)
    requires Valid(plan, target)
    ensures plan.version == 2 && |plan.fields| == 32 && plan.fields[3] == target
    ensures plan.fields[11] == [49, 50, 55, 46, 48, 46, 48, 46, 49]  // 127.0.0.1
    ensures plan.fields[8] == PRESENT || plan.fields[8] == ABSENT
    ensures IsDecimal(plan.fields[12]) && 1 <= Numeral(plan.fields[12]) <= 65535
    ensures IsDecimal(plan.fields[9]) && 1 <= Numeral(plan.fields[9]) <= 2147483647
    ensures IsDecimal(plan.fields[7]) && 1 <= Numeral(plan.fields[7]) <= 9007199254740991
    ensures plan.fields[6] != plan.fields[5] && plan.fields[6] != plan.fields[10]
  {
    hide IsDecimal, Numeral, LowerHex, BoundedId, IsVersion, PathsValid, DigestsValid, DeadlinesValid;
  }

  lemma NamesAsText()
    ensures LOOPBACK == Ascii("127.0.0.1") && HandoffPlan.MAGIC == Ascii("KHP1")
    ensures PRESENT == Ascii("present") && ABSENT == Ascii("absent")
  {
  }

  /** The activation is 32 hexadecimal digits, and each of the eight digests is 64 of them. */
  lemma AcceptedDigests(plan: Plan, target: seq<Byte>)
    requires Valid(plan, target)
    ensures |plan.fields[0]| == 32 && HexDigits(plan.fields[0])
    ensures forall i | 20 <= i <= 27 :: |plan.fields[i]| == 64 && HexDigits(plan.fields[i])
  {
    hide LowerHex, HexDigits, PathsValid, DeadlinesValid;
    LowerHexIsHexDigits(plan.fields[0], 32);
    forall i | 20 <= i <= 27
      ensures |plan.fields[i]| == 64 && HexDigits(plan.fields[i])
    {
      LowerHexIsHexDigits(plan.fields[i], 64);
    }
  }

  /** The deadlines for the old exit, the start, the verification and the cleanup come one after the other. */
  lemma AcceptedDeadlines(plan: Plan, target: seq<Byte>)
    requires Valid(plan, target)
    ensures forall i | 28 <= i <= 31 :: IsDecimal(plan.fields[i])
    ensures 1 <= Numeral(plan.fields[28]) < Numeral(plan.fields[29])
    ensures Numeral(plan.fields[29]) < Numeral(plan.fields[30]) < Numeral(plan.fields[31]) <= 9007199254740991
  {
    hide IsDecimal, Numeral, IdentitiesValid, PathsValid, DigestsValid;
  }

  predicate LetterOrDigit(b: Byte) {
    'A' as int <= b <= 'Z' as int || 'a' as int <= b <= 'z' as int || '0' as int <= b <= '9' as int
  }

  /** Identities have up to 128 letters, digits and ". _ : -", versions up to 64 and ". + -". */
  lemma IdentitiesAndVersions(text: seq<Byte>)
    ensures BoundedId(text) <==>
              && 1 <= |text| <= 128 && LetterOrDigit(text[0])
              && forall i | 0 <= i < |text| :: LetterOrDigit(text[i])
                   || text[i] == '.' as int || text[i] == '_' as int || text[i] == ':' as int || text[i] == '-' as int
    ensures IsVersion(text) <==>
              && 1 <= |text| <= 64 && LetterOrDigit(text[0])
              && forall i | 0 <= i < |text| :: LetterOrDigit(text[i])
                   || text[i] == '.' as int || text[i] == '+' as int || text[i] == '-' as int
  {
  }

  /** Files and fields have up to 65536 bytes; the two shapes are version 2 with 32 and version 3 with 37 fields. */
  lemma SizesInNumbers(plan: Plan)
    ensures KnownShape(plan.version, |plan.fields|) <==>
              (plan.version == 2 && |plan.fields| == 32) || (plan.version == 3 && |plan.fields| == 37)
    ensures Encodable(plan) <==>
              && KnownShape(plan.version, |plan.fields|) && |Encode(plan)| <= 65536
              && forall i | 0 <= i < |plan.fields| ::
                   0 < |plan.fields[i]| <= 65536 && 0 !in plan.fields[i] && Utf8.Octets(plan.fields[i])
  {
    hide Utf8.Octets, Encode;
  }

  /** No sign, no space, no leading zero, at most sixteen digits. */
  lemma DecimalForms(text: seq<Byte>)
    ensures IsDecimal(text) ==> 1 <= |text| <= 16 && forall i | 0 <= i < |text| :: '0' as int <= text[i] <= '9' as int
    ensures IsDecimal(text) && |text| > 1 ==> text[0] != '0' as int
    ensures IsDecimal([48]) && Numeral([48]) == 0
    ensures IsDecimal([52, 52, 51]) && Numeral([52, 52, 51]) == 443
  {
    var number: seq<Byte> := [52, 52, 51];
    var zero: seq<Byte> := [48];
    assert zero[..0] == [];
    assert number[..2] == [52, 52] && number[..2][..1] == [52] && number[..1][..0] == [];
  }

  // -------------------------------------------------------------- one accepted plan

  function Repeated(b: Byte, n: nat): (bytes: seq<Byte>)
    ensures |bytes| == n && forall i | 0 <= i < n :: bytes[i] == b
  {
    seq(n, _ => b)
  }

  function ExampleFields(target: seq<Byte>): (fields: seq<seq<Byte>>)
    ensures |fields| == 32
  {
    var activation, digest := Repeated(97, 32), Repeated(48, 64);
    var t := Example(activation);
    [activation, [117], t.stageId, target, [49, 46, 48], [105], [106], [55],
     PRESENT, [52, 52, 51], [107], LOOPBACK, [52, 52, 51], [49, 46, 49],
     t.managed, t.stage, t.candidate, t.backup, t.launcher, t.supervisor,
     digest, digest, digest, digest, digest, digest, digest, digest,
     [49], [50], [51], [52, 52, 51]]
  }

  lemma OneDigit(b: Byte)
    requires 49 <= b <= 57
    ensures IsDecimal([b]) && Numeral([b]) == b - 48
  {
    assert [b][..0] == [];
  }

  lemma SmallNames(b: Byte)
    requires 97 <= b <= 122
    ensures BoundedId([b])
  {
  }

  lemma SmallVersions()
    ensures IsVersion([49, 46, 48]) && IsVersion([49, 46, 49])
  {
  }

  lemma SmallHex(n: nat)
    ensures LowerHex(Repeated(97, n), n)
  {
  }

  lemma IdentitiesOf(fields: seq<seq<Byte>>, target: seq<Byte>)
    requires |fields| == 32
    requires fields[0] == Repeated(97, 32) && fields[1] == [117] && fields[2] == [115] && fields[3] == target
    requires fields[4] == [49, 46, 48] && fields[5] == [105] && fields[6] == [106] && fields[7] == [55]
    requires fields[8] == PRESENT && fields[9] == [52, 52, 51] && fields[10] == [107]
    requires fields[11] == LOOPBACK && fields[12] == [52, 52, 51] && fields[13] == [49, 46, 49]
    ensures IdentitiesValid(fields, target)
  {
    hide IsDecimal, Numeral, BoundedId, IsVersion, LowerHex, Repeated;
    SmallHex(32);
    DecimalForms([]);
    OneDigit(55);
    SmallNames(117);
    SmallNames(115);
    SmallNames(105);
    SmallNames(106);
    SmallNames(107);
    SmallVersions();
    assert fields[5][0] != fields[6][0] && fields[10][0] != fields[6][0];
  }

  lemma ExampleIdentities(target: seq<Byte>)
    ensures IdentitiesValid(ExampleFields(target), target)
  {
    hide IdentitiesValid, Repeated;
    IdentitiesOf(ExampleFields(target), target);
  }

  lemma ExampleDeadlines(target: seq<Byte>)
    ensures DeadlinesValid(ExampleFields(target)) && DigestsValid(ExampleFields(target))
  {
    hide IsDecimal, Numeral, Example;
    DecimalForms([]);
    OneDigit(49);
    OneDigit(50);
    OneDigit(51);
  }

  lemma ExamplePaths(target: seq<Byte>)
    ensures PathsValid(ExampleFields(target))
  {
    hide Canonical, TopologyHolds, Repeated;
    ExampleIsAccepted(Repeated(97, 32));
    var fields := ExampleFields(target);
    assert TopologyOf(fields) == Example(Repeated(97, 32));
    hide ExampleFields, TopologyOf, Example;
    forall i | 14 <= i <= 19 ensures Canonical(fields[i]) { CanonicalFields(fields, i); }
  }

  lemma CanonicalFields(fields: seq<seq<Byte>>, i: nat)
    requires |fields| == 32 && AllCanonical(TopologyOf(fields)) && 14 <= i <= 19
    ensures Canonical(fields[i])
  {
    hide Canonical;
  }

  /** For every target there is a plan that all checks accept. */
  lemma ExampleIsValid(target: seq<Byte>)
    ensures Valid(Plan(2, ExampleFields(target)), target)
  {
    hide IdentitiesValid, DeadlinesValid, DigestsValid, PathsValid, ExampleFields;
    ExampleIdentities(target);
    ExampleDeadlines(target);
    ExamplePaths(target);
  }
}
