/** A device's topics, and the QR request it publishes: printed by the firmware and by the
    service, split and checked by the service. */
module Topics {
  import opened Common
  import opened Text

  const MAX_MERCHANT_ID := 25
  const MAX_SN := 31

  function DeviceTopic(merchant: string, sn: string): string {
    "topic/" + merchant + "/" + sn
  }

  function DeviceRequestTopic(merchant: string, sn: string): string {
    "qris/request/" + merchant + "/" + sn
  }

  function ParseRequestTopic(topic: string): Option<(string, string)> {
    var parts := Split(topic, '/');
    if |parts| != 4 || parts[0] != "qris" || parts[1] != "request" || parts[2] == "" || parts[3] == "" then None
    else Some((parts[2], parts[3]))
  }

  datatype Message = Message(device: string, amount: int)

  /** "{device_id}|{amount_sen}"; the sen are cut off. */
  function ParseGenerateQRMessage(payload: string): Option<Message> {
    var parts := Split(payload, '|');
    if |parts| != 2 || parts[0] == "" then None
    else
      var sen := ParseInt(parts[1]);
      if sen.None? || sen.value <= 0 then None else Some(Message(parts[0], sen.value / 100))
  }

  predicate CheckRequestIdentity(topicMerchant: string, topicSn: string, payloadSn: string, deviceMerchant: string) {
    payloadSn == topicSn && deviceMerchant == topicMerchant
  }

  /** validateID: non-empty, bounded, alphanumeric. */
  predicate ValidId(id: string, max: nat) {
    0 < |id| <= max && Alphanumeric(id)
  }

  /** The IDs that are accepted, and thereby every length and every character of theirs. */
  lemma AcceptedIds(id: string)
    ensures ValidId(id, MAX_MERCHANT_ID) <==>
              1 <= |id| <= 25
              && forall c :: c in id ==> 'A' <= c <= 'Z' || 'a' <= c <= 'z' || '0' <= c <= '9'
    ensures ValidId(id, MAX_SN) <==>
              1 <= |id| <= 31
              && forall c :: c in id ==> 'A' <= c <= 'Z' || 'a' <= c <= 'z' || '0' <= c <= '9'
  {
    assert forall i :: 0 <= i < |id| ==> id[i] in id;
  }

  /** snprintf into a buffer of `size` bytes. */
  function Printed(s: string, size: nat): string
    requires size > 0
  {
    if |s| < size then s else s[..size - 1]
  }

  /** What the firmware publishes for a QR over `sen`. */
  function RequestPayload(sn: string, sen: nat): string {
    Printed(sn + "|" + Decimal(sen), 64)
  }

  /** Exactly the requests of at most 63 characters are published uncut. */
  lemma RequestFits(sn: string, sen: nat)
    ensures RequestPayload(sn, sen) == sn + "|" + Decimal(sen) <==> |sn| + |Decimal(sen)| <= 62
  {
  }

  lemma NoSeparator(s: string, c: char)
    requires Alphanumeric(s) && (c == '/' || c == '|' || c == '-' || c == '=')
    ensures c !in s
  {
  }

  lemma RequestTopicShape(merchant: string, sn: string)
    ensures DeviceRequestTopic(merchant, sn) == "qris" + ['/'] + ("request" + ['/'] + (merchant + ['/'] + sn))
  {
  }

  /** The topic parser accepts exactly the request topics and gives back their two parts. */
  lemma RequestTopicParses(topic: string, merchant: string, sn: string)
    ensures ParseRequestTopic(topic) == Some((merchant, sn)) <==>
              topic == DeviceRequestTopic(merchant, sn) && merchant != "" && sn != ""
              && '/' !in merchant && '/' !in sn
  {
    RequestTopicShape(merchant, sn);
    if ParseRequestTopic(topic) == Some((merchant, sn)) {
      var parts := Split(topic, '/');
      JoinSplit(topic, '/');
      assert parts == ["qris", "request", merchant, sn];
      assert '/' !in parts[2] && '/' !in parts[3];
      JoinFour("qris", "request", merchant, sn, '/');
    }
    if topic == DeviceRequestTopic(merchant, sn) && merchant != "" && sn != "" && '/' !in merchant && '/' !in sn {
      SplitFour("qris", "request", merchant, sn, '/');
    }
  }

  /** The payload is the device, one bar and a positive number of sen. */
  predicate Requests(payload: string, m: Message, num: string) {
    && payload == m.device + "|" + num && m.device != "" && '|' !in m.device && '|' !in num
    && ParseInt(num).Some? && ParseInt(num).value > 0 && m.amount == ParseInt(num).value / 100
  }

  /** A payload is accepted exactly when it is a device, one bar and a positive 64-bit number. */
  lemma MessageParses(payload: string, m: Message)
    ensures ParseGenerateQRMessage(payload) == Some(m) <==>
              exists num :: Requests(payload, m, num)
  {
    hide Split, ParseInt, Join, IndexOf;
    if ParseGenerateQRMessage(payload) == Some(m) {
      SplitTwo(payload, '|');
      assert Requests(payload, m, Split(payload, '|')[1]);
    }
    if num :| Requests(payload, m, num) {
      SplitPair(m.device, '|', num);
    }
  }

  /** The whole request path: what a device with a valid identity publishes for up to twelve digits
      of sen is not cut by the firmware's 64-byte buffer, and the service reads back that device and
      that amount in whole Rupiah, from the topic the same device; the identity check then passes
      exactly when the device is registered to the merchant it publishes for. */
  lemma RequestRoundTrip(merchant: string, sn: string, sen: nat, registered: string)
    requires ValidId(merchant, MAX_MERCHANT_ID) && ValidId(sn, MAX_SN) && 0 < sen < 1_000_000_000_000
    ensures RequestPayload(sn, sen) == sn + "|" + Decimal(sen)
    ensures ParseGenerateQRMessage(RequestPayload(sn, sen)) == Some(Message(sn, sen / 100))
    ensures ParseRequestTopic(DeviceRequestTopic(merchant, sn)) == Some((merchant, sn))
    ensures CheckRequestIdentity(merchant, sn, ParseGenerateQRMessage(RequestPayload(sn, sen)).value.device, registered)
            <==> registered == merchant
  {
    hide ParseGenerateQRMessage, ParseRequestTopic, DeviceRequestTopic, Decimal, Value, ParseInt;
    TwelveDigits();
    DecimalLength(sen, 12);
    ParsePrinted(sen);
    NoSeparator(sn, '|');
    NoSeparator(sn, '/');
    NoSeparator(merchant, '/');
    assert '|' !in Decimal(sen) by { assert forall i :: 0 <= i < |Decimal(sen)| ==> IsDigit(Decimal(sen)[i]); }
    assert Requests(RequestPayload(sn, sen), Message(sn, sen / 100), Decimal(sen));
    MessageParses(RequestPayload(sn, sen), Message(sn, sen / 100));
    RequestTopicParses(DeviceRequestTopic(merchant, sn), merchant, sn);
  }

  lemma TwelveDigits()
    ensures Pow10(12) == 1_000_000_000_000
  {
  }

  /** Two devices with valid identities never share a topic. */
  lemma TopicsInjective(m1: string, sn1: string, m2: string, sn2: string)
    requires ValidId(m1, MAX_MERCHANT_ID) && ValidId(m2, MAX_MERCHANT_ID)
    requires ValidId(sn1, MAX_SN) && ValidId(sn2, MAX_SN)
    requires DeviceTopic(m1, sn1) == DeviceTopic(m2, sn2) || DeviceRequestTopic(m1, sn1) == DeviceRequestTopic(m2, sn2)
    ensures m1 == m2 && sn1 == sn2
  {
    NoSeparator(m1, '/');
    NoSeparator(m2, '/');
    NoSeparator(sn1, '/');
    NoSeparator(sn2, '/');
    var a, b := m1 + "/" + sn1, m2 + "/" + sn2;
    var p := if DeviceTopic(m1, sn1) == DeviceTopic(m2, sn2) then "topic/" else "qris/request/";
    assert p + a == p + b by {
      assert DeviceTopic(m1, sn1) == "topic/" + a && DeviceTopic(m2, sn2) == "topic/" + b;
      assert DeviceRequestTopic(m1, sn1) == "qris/request/" + a && DeviceRequestTopic(m2, sn2) == "qris/request/" + b;
    }
    DropPrefix(p, a, b);
    PairInjective(m1, sn1, m2, sn2, '/');
  }
}
