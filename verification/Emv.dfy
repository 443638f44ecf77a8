/** EMV "tag(2) length(2) value" data (section 3.2 of the EMVCo Merchant-Presented QR
    specification): the parser, and the payment request built from a two-level QR. */
module Emv {
  import opened Common
  import opened Text

  type Tlv = map<string, string>

  /** One field as it lies in the payload; the length text is whatever Atoi reads as the length. */
  datatype Field = Field(tag: string, length: string, value: string)

  predicate ValidField(f: Field) {
    |f.tag| == 2 && |f.length| == 2 && ParseInt(f.length) == Some(|f.value|)
  }

  predicate ValidFields(fs: seq<Field>) {
    forall i :: 0 <= i < |fs| ==> ValidField(fs[i])
  }

  function Flatten(fs: seq<Field>): string {
    if fs == [] then "" else fs[0].tag + fs[0].length + fs[0].value + Flatten(fs[1..])
  }

  /** The map a payload stands for: a repeated tag keeps its last value. */
  function LastWins(fs: seq<Field>): Tlv {
    if fs == [] then map[] else map[fs[0].tag := fs[0].value] + LastWins(fs[1..])
  }

  // ----- the parser -----------------------------------------------------------------------

  /** The field at the front of s, if there is a whole one. */
  function Front(s: string): Option<Field> {
    if |s| < 4 then None
    else
      var n := ParseInt(s[2..4]);
      if n.None? || n.value < 0 || 4 + n.value > |s| then None
      else Some(Field(s[..2], s[2..4], s[4..4 + n.value]))
  }

  /** All fields of s, if they cover it exactly. */
  function FieldsOf(s: string): Option<seq<Field>>
    decreases |s|
  {
    if s == "" then Some([])
    else
      var f := Front(s);
      if f.None? then None
      else
        var rest := FieldsOf(s[4 + |f.value.value|..]);
        if rest.None? then None else Some([f.value] + rest.value)
  }

  /** What remains to be read at position i decides the outcome. */
  function Outcome(read: Tlv, rest: string): Option<Tlv> {
    var fs := FieldsOf(rest);
    if fs.None? then None else Some(read + LastWins(fs.value))
  }

  /** A field read at position i goes into the map, and the rest decides the outcome. */
  lemma OutcomeStep(read: Tlv, rest: string)
    requires rest != ""
    ensures Front(rest).None? ==> Outcome(read, rest) == None
    ensures Front(rest).Some? ==>
              var f := Front(rest).value;
              Outcome(read, rest) == Outcome(read[f.tag := f.value], rest[4 + |f.value|..])
  {
    if Front(rest).Some? {
      var f := Front(rest).value;
      var tail := FieldsOf(rest[4 + |f.value|..]);
      if tail.Some? {
        assert ([f] + tail.value)[1..] == tail.value;
        assert read + (map[f.tag := f.value] + LastWins(tail.value)) == read[f.tag := f.value] + LastWins(tail.value);
      }
    }
  }

  lemma FrontAt(s: string, i: nat)
    requires i + 4 <= |s|
    ensures var n := ParseInt(s[i + 2..i + 4]);
            Front(s[i..]) == if n.None? || n.value < 0 || i + 4 + n.value > |s| then None
                             else Some(Field(s[i..i + 2], s[i + 2..i + 4], s[i + 4..i + 4 + n.value]))
    ensures Front(s[i..]).Some? ==>
            s[i..][4 + |Front(s[i..]).value.value|..] == s[i + 4 + |Front(s[i..]).value.value|..]
  {
    var rest := s[i..];
    assert rest[..2] == s[i..i + 2] && rest[2..4] == s[i + 2..i + 4];
    var n := ParseInt(rest[2..4]);
    if n.Some? && n.value >= 0 && 4 + n.value <= |rest| {
      assert rest[4..4 + n.value] == s[i + 4..i + 4 + n.value];
    }
  }

  /** One turn of the parser's loop, in terms of positions in the payload. */
  lemma TurnAt(read: Tlv, s: string, i: nat)
    requires i < |s|
    ensures i + 4 > |s| ==> Outcome(read, s[i..]) == None
    ensures i + 4 <= |s| ==>
              var n := ParseInt(s[i + 2..i + 4]);
              Outcome(read, s[i..]) ==
              if n.None? || n.value < 0 || i + 4 + n.value > |s| then None
              else Outcome(read[s[i..i + 2] := s[i + 4..i + 4 + n.value]], s[i + 4 + n.value..])
  {
    OutcomeStep(read, s[i..]);
    if i + 4 <= |s| { FrontAt(s, i); }
  }

  lemma OutcomeEnds(read: Tlv, s: string)
    ensures Outcome(map[], s) == if FieldsOf(s).Some? then Some(LastWins(FieldsOf(s).value)) else None
    ensures Outcome(read, s[|s|..]) == Some(read)
  {
    assert FieldsOf(s).Some? ==> map[] + LastWins(FieldsOf(s).value) == LastWins(FieldsOf(s).value);
    assert read + LastWins([]) == read;
  }

  method ParseEMV(s: string) returns (r: Option<Tlv>)
    ensures r == if FieldsOf(s).Some? then Some(LastWins(FieldsOf(s).value)) else None
  {
    hide Outcome, FieldsOf, LastWins, ParseInt;
    var out: Tlv := map[];
    var i := 0;
    assert s[0..] == s;
    OutcomeEnds(out, s);
    while i < |s|
      invariant i <= |s|
      invariant Outcome(map[], s) == Outcome(out, s[i..])
      decreases |s| - i
    {
      TurnAt(out, s, i);
      if i + 4 > |s| { return None; }
      var tag := s[i..i + 2];
      var n := ParseInt(s[i + 2..i + 4]);
      if n.None? || n.value < 0 { return None; }
      var start := i + 4;
      if start + n.value > |s| { return None; }
      out := out[tag := s[start..start + n.value]];
      i := start + n.value;
    }
    OutcomeEnds(out, s);
    r := Some(out);
  }

  lemma FrontSound(s: string)
    requires Front(s).Some?
    ensures var f := Front(s).value;
            ValidField(f) && 4 + |f.value| <= |s| && s == f.tag + f.length + f.value + s[4 + |f.value|..]
  {
    hide ParseInt;
  }

  lemma FrontOfField(f: Field, rest: string)
    requires ValidField(f)
    ensures var s := f.tag + f.length + f.value + rest;
            Front(s) == Some(f) && |f.tag| + |f.length| == 4 && s[4 + |f.value|..] == rest
  {
    hide ParseInt;
    var s := f.tag + f.length + f.value + rest;
    assert s[..2] == f.tag && s[2..4] == f.length && s[4..4 + |f.value|] == f.value && s[4 + |f.value|..] == rest;
  }

  /** A payload parses exactly when fields cover it, and then into those very fields. */
  lemma {:induction false} ParseSound(s: string)
    requires FieldsOf(s).Some?
    ensures ValidFields(FieldsOf(s).value) && Flatten(FieldsOf(s).value) == s
    decreases |s|
  {
    hide ParseInt, Front, ValidField;
    if s != "" {
      FrontSound(s);
      var f := Front(s).value;
      var rest := s[4 + |f.value|..];
      ParseSound(rest);
      assert FieldsOf(s).value == [f] + FieldsOf(rest).value;
      assert FieldsOf(s).value[1..] == FieldsOf(rest).value;
    }
  }

  lemma {:induction false} ParseComplete(fs: seq<Field>)
    requires ValidFields(fs)
    ensures FieldsOf(Flatten(fs)) == Some(fs)
    decreases |fs|
  {
    hide ParseInt, Front, ValidField;
    if fs != [] {
      FrontOfField(fs[0], Flatten(fs[1..]));
      ParseComplete(fs[1..]);
      assert fs == [fs[0]] + fs[1..];
    }
  }

  /** Two different lists of valid fields never flatten to the same payload. */
  lemma FlattenInjective(fs: seq<Field>, gs: seq<Field>)
    requires ValidFields(fs) && ValidFields(gs) && Flatten(fs) == Flatten(gs)
    ensures fs == gs
  {
    ParseComplete(fs);
    ParseComplete(gs);
  }

  // ----- fields as the standard writes them -----------------------------------------------

  function TwoDigits(n: nat): string
    requires n < 100
  {
    [Digit(n / 10), Digit(n % 10)]
  }

  function StandardField(tag: string, value: string): Field
    requires |value| < 100
  {
    Field(tag, TwoDigits(|value|), value)
  }

  lemma TwoDigitsParse(n: nat)
    requires n < 100
    ensures ParseInt(TwoDigits(n)) == Some(n)
  {
    var s := TwoDigits(n);
    assert s[..1] == [Digit(n / 10)] && s[..1][..0] == "";
    assert Value(s[..1]) == n / 10;
  }

  /** Every field with a 2-character tag and up to 99 characters, written with two digits, parses. */
  lemma StandardFieldIsValid(tag: string, value: string)
    requires |tag| == 2 && |value| < 100
    ensures ValidField(StandardField(tag, value))
  {
    TwoDigitsParse(|value|);
  }

  /** What a two-character length says, as the parser reads it: two digits, a '+' and a digit, or "-0". */
  function LengthOf(s: string): Option<nat>
    requires |s| == 2
  {
    if IsDigit(s[0]) && IsDigit(s[1]) then Some(10 * (s[0] as int - '0' as int) + (s[1] as int - '0' as int))
    else if s[0] == '+' && IsDigit(s[1]) then Some(s[1] as int - '0' as int)
    else if s == "-0" then Some(0)
    else None
  }

  /** Those are all the lengths that are accepted, the two signed kinds being none of the standard's. */
  lemma LenientLengths(f: Field)
    requires |f.length| == 2
    ensures ValidField(f) <==> |f.tag| == 2 && LengthOf(f.length) == Some(|f.value|)
  {
    var s := f.length;
    var tail := s[1..];
    assert tail == [s[1]] && tail[..0] == "" && s[..1] == [s[0]] && s[..1][..0] == "";
    assert AllDigits(tail) <==> IsDigit(s[1]);
    assert AllDigits(s) <==> IsDigit(s[0]) && IsDigit(s[1]);
    if IsDigit(s[1]) { assert Value(tail) == s[1] as int - '0' as int; }
    if AllDigits(s) { assert Value(s[..1]) == s[0] as int - '0' as int; }
  }

  // ----- a QR as the standard writes it ---------------------------------------------------

  datatype Entry = Entry(tag: string, value: string)

  predicate EntriesOk(es: seq<Entry>) {
    forall i :: 0 <= i < |es| ==> |es[i].tag| == 2 && |es[i].value| < 100
  }

  function Standard(es: seq<Entry>): (fs: seq<Field>)
    requires EntriesOk(es)
    ensures |fs| == |es| && forall i :: 0 <= i < |es| ==> fs[i] == StandardField(es[i].tag, es[i].value)
  {
    seq(|es|, i requires 0 <= i < |es| => StandardField(es[i].tag, es[i].value))
  }

  function Written(es: seq<Entry>): string
    requires EntriesOk(es)
  {
    Flatten(Standard(es))
  }

  lemma StandardIsValid(es: seq<Entry>)
    requires EntriesOk(es)
    ensures ValidFields(Standard(es))
  {
    forall i | 0 <= i < |es| ensures ValidField(Standard(es)[i]) { StandardFieldIsValid(es[i].tag, es[i].value); }
  }

  /** Whatever is written can be read back, and only as what was written. */
  lemma WrittenInjective(es: seq<Entry>, gs: seq<Entry>)
    requires EntriesOk(es) && EntriesOk(gs) && Written(es) == Written(gs)
    ensures es == gs
  {
    StandardIsValid(es);
    StandardIsValid(gs);
    FlattenInjective(Standard(es), Standard(gs));
    forall i | 0 <= i < |es| ensures es[i] == gs[i] {
      assert Standard(es)[i] == Standard(gs)[i];
    }
  }

  /** A tag that occurs once is looked up with its value. */
  lemma {:induction false} OnlyOnce(fs: seq<Field>, i: nat)
    requires i < |fs| && forall k :: 0 <= k < |fs| && k != i ==> fs[k].tag != fs[i].tag
    ensures fs[i].tag in LastWins(fs) && LastWins(fs)[fs[i].tag] == fs[i].value
  {
    if i == 0 {
      NotThere(fs[1..], fs[0].tag);
    } else {
      OnlyOnce(fs[1..], i - 1);
    }
  }

  lemma {:induction false} NotThere(fs: seq<Field>, tag: string)
    requires forall k :: 0 <= k < |fs| ==> fs[k].tag != tag
    ensures tag !in LastWins(fs)
  {
    if fs != [] { NotThere(fs[1..], tag); }
  }

  // ----- the payment request --------------------------------------------------------------

  function Get(m: Tlv, tag: string): string {
    if tag in m then m[tag] else ""
  }

  function Parsed(s: string): Option<Tlv> {
    var fs := FieldsOf(s);
    if fs.None? then None else Some(LastWins(fs.value))
  }

  /** "50000.00" to 50000; None unless positive. */
  function ParseAmount(value: string): (r: Option<int>)
    ensures r.Some? ==> r.value > 0
  {
    var n := ParseInt(value[..IndexOf(value, '.')]);
    if n.None? || n.value <= 0 then None else n
  }

  datatype Request = Request(
    amount: int, acquirerNns: string, nationalMid: string, additionalData: string, terminalLabel: string,
    pan: string, merchantId: string, criteria: string, name: string, city: string, mcc: string, postalCode: string,
    countryCode: string, customerPan: string)

  /** The request from the three parsed levels. */
  function Assemble(top: Tlv, account: Tlv, additional: Tlv): Option<Request> {
    if |Get(account, "01")| < 8 || Get(account, "02") == "" || Get(additional, "05") == "" then None
    else if ParseAmount(Get(top, "54")).None? then None
    else Some(Request(ParseAmount(Get(top, "54")).value, Get(account, "01")[..8], Get(account, "02"),
                      Get(top, "62"), Get(additional, "07"), Get(account, "01"), Get(account, "02"),
                      Get(account, "03"), Get(top, "59"), Get(top, "60"), Get(top, "52"), Get(top, "61"),
                      Get(top, "58"), Get(account, "01")))
  }

  function BuildPaymentRequest(qr: string): Option<Request> {
    match Parsed(qr)
    case None => None
    case Some(top) =>
      match Parsed(Get(top, "26"))
      case None => None
      case Some(account) =>
        match Parsed(Get(top, "62"))
        case None => None
        case Some(additional) => Assemble(top, account, additional)
  }

  function ReferenceLabel(r: Request): string {
    var additional := Parsed(r.additionalData);
    if additional.None? then "" else Get(additional.value, "05")
  }

  lemma AmountRoundTrip(n: nat)
    requires 0 < n <= INT64_MAX
    ensures ParseAmount(Decimal(n) + ".00") == Some(n)
  {
    assert '.' !in Decimal(n);
    IndexOfFirst(Decimal(n), '.', "00");
    assert Decimal(n) + ".00" == Decimal(n) + ['.'] + "00";
    assert (Decimal(n) + ".00")[..|Decimal(n)|] == Decimal(n);
    ParsePrinted(n);
  }

  /** The request carries the QR's own merchant, reference and amount. */
  predicate Recovers(r: Request, top: Tlv, account: Tlv, additional: Tlv, n: nat) {
    && r.amount == n
    && r.pan == Get(account, "01")
    && r.customerPan == r.pan
    && |r.pan| >= 8
    && r.acquirerNns == r.pan[..8]
    && r.merchantId == Get(account, "02")
    && r.nationalMid == r.merchantId
    && ReferenceLabel(r) == Get(additional, "05")
    && r.terminalLabel == Get(additional, "07")
    && r.name == Get(top, "59")
    && r.city == Get(top, "60")
    && r.mcc == Get(top, "52")
    && r.postalCode == Get(top, "61")
    && r.countryCode == Get(top, "58")
    && r.criteria == Get(account, "03")
    && r.additionalData == Get(top, "62")
  }

  /** The field is there, with at least `least` characters. */
  predicate Has(m: Tlv, tag: string, least: nat) { tag in m && |m[tag]| >= least }

  /** On a two-level QR over n Rupiah the request recovers PAN, merchant, reference and amount; it is
      built iff the PAN has eight characters and merchant ID and reference label are not empty,
      whatever other fields the QR has and in whatever order. */
  lemma RequestFromTwoLevels(top: seq<Field>, account: seq<Field>, additional: seq<Field>, n: nat)
    requires ValidFields(top) && ValidFields(account) && ValidFields(additional)
    requires 0 < n <= INT64_MAX
    requires Get(LastWins(top), "26") == Flatten(account)
    requires Get(LastWins(top), "62") == Flatten(additional)
    requires Get(LastWins(top), "54") == Decimal(n) + ".00"
    ensures BuildPaymentRequest(Flatten(top)).Some? <==>
              Has(LastWins(account), "01", 8) && Has(LastWins(account), "02", 1) && Has(LastWins(additional), "05", 1)
    ensures BuildPaymentRequest(Flatten(top)).Some? ==>
              Recovers(BuildPaymentRequest(Flatten(top)).value, LastWins(top), LastWins(account),
                  LastWins(additional), n)
  {
    ParseComplete(top);
    ParseComplete(account);
    ParseComplete(additional);
    AmountRoundTrip(n);
  }

  /** A two-level QR over n Rupiah, with any other fields behind the three that nest and price it. */
  function TwoLevels(account: seq<Entry>, additional: seq<Entry>, n: nat, others: seq<Entry>): seq<Entry>
    requires EntriesOk(account) && EntriesOk(additional)
  {
    [Entry("26", Written(account)), Entry("54", Decimal(n) + ".00"), Entry("62", Written(additional))] + others
  }

  /** Whoever writes a QR as the standard says is understood: the simulator's request carries the merchant,
      the reference and the amount that were put in, exactly if the fields it needs are there. */
  lemma StandardQrIsPaid(account: seq<Entry>, additional: seq<Entry>, n: nat, others: seq<Entry>)
    requires EntriesOk(account) && EntriesOk(additional) && EntriesOk(others) && 0 < n <= INT64_MAX
    requires |Written(account)| < 100 && |Written(additional)| < 100
    requires forall i :: 0 <= i < |others| ==> others[i].tag !in ["26", "54", "62"]
    ensures EntriesOk(TwoLevels(account, additional, n, others))
    ensures var qr := Written(TwoLevels(account, additional, n, others));
            var a, d := LastWins(Standard(account)), LastWins(Standard(additional));
            && (BuildPaymentRequest(qr).Some? <==> Has(a, "01", 8) && Has(a, "02", 1) && Has(d, "05", 1))
            && (BuildPaymentRequest(qr).Some? ==>
                  Recovers(BuildPaymentRequest(qr).value,
                      LastWins(Standard(TwoLevels(account, additional, n, others))), a, d, n))
  {
    hide BuildPaymentRequest, Recovers, ValidFields, LastWins;
    var top := TwoLevels(account, additional, n, others);
    AmountIsShort(n);
    assert forall i :: 3 <= i < |top| ==> top[i] == others[i - 3];
    var fs := Standard(top);
    assert "26" != "54" && "54" != "62" && "26" != "62";
    OnlyOnce(fs, 0);
    OnlyOnce(fs, 1);
    OnlyOnce(fs, 2);
    StandardIsValid(top);
    StandardIsValid(account);
    StandardIsValid(additional);
    RequestFromTwoLevels(fs, Standard(account), Standard(additional), n);
  }

  lemma AmountIsShort(n: nat)
    requires n <= INT64_MAX
    ensures |Decimal(n) + ".00"| < 100
  {
    BelowPower(n);
    DecimalLength(n, 19);
  }

  lemma BelowPower(n: nat)
    requires n <= INT64_MAX
    ensures n < Pow10(19)
  {
    assert Pow10(4) == 10_000 by { assert Pow10(2) == 100; }
    assert Pow10(8) == 100_000_000 by { assert Pow10(6) == 1_000_000; }
    assert Pow10(12) == 1_000_000_000_000 by { assert Pow10(10) == 10_000_000_000; }
    assert Pow10(16) == 10_000_000_000_000_000 by { assert Pow10(14) == 100_000_000_000_000; }
    assert Pow10(19) == 10_000_000_000_000_000_000 by { assert Pow10(18) == 1_000_000_000_000_000_000; }
  }
}
