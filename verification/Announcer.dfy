/** Announcing one payment: at most three publishes of one message, one log entry; and, end to end,
    what the cashier hears in a run of the payment protocol. */
module Announcer {
  import opened Common
  import Topics
  import Voice
  import Soundbox
  import Transactions
  import Poller
  import Provisioning
  import DeviceConfig

  const ATTEMPTS := 3

  datatype Message = Message(topic: string, payload: string)

  /** The row written to mqtt_messages. */
  datatype Entry = Entry(tx: string, message: Message, processed: bool)

  /** What one publish meets: success, or a failure after which the context may be cancelled. */
  datatype Fate = Accepted | Refused | RefusedAndCancelled

  function Repeat<T>(x: T, n: nat): (s: seq<T>)
    ensures |s| == n
  {
    seq(n, _ => x)
  }

  lemma Speakable(rupiah: int)
    ensures Soundbox.Payload(rupiah).Some? <==> 1 <= rupiah <= Voice.MAX_RUPIAH
  {
  }

  class Announcer {
    const fates: nat -> Fate
    var published: seq<Message>
    var log: seq<Entry>

    constructor (fates: nat -> Fate)
      ensures this.fates == fates && published == [] && log == []
    {
      this.fates, published, log := fates, [], [];
    }

    /** publishWithRetry: every attempt but the last was refused; it stops early only on success or cancellation. */
    method PublishWithRetry(m: Message) returns (ok: bool, ghost tries: nat)
      modifies this`published
      ensures 1 <= tries <= 3 && published == old(published) + Repeat(m, tries)
      ensures var n := |old(published)|;
              && (ok <==> fates(n + tries - 1) == Accepted)
              && (forall k :: n <= k < n + tries - 1 ==> fates(k) == Refused)
              && (!ok && tries < 3 ==> fates(n + tries - 1) == RefusedAndCancelled)
    {
      ok, tries := false, 0;
      for attempt := 1 to ATTEMPTS + 1
        invariant tries == attempt - 1 && published == old(published) + Repeat(m, tries)
        invariant forall k :: |old(published)| <= k < |old(published)| + tries ==> fates(k) == Refused
        invariant attempt <= ATTEMPTS
      {
        var fate := fates(|published|);
        published := published + [m];
        tries := tries + 1;
        assert Repeat(m, tries) == Repeat(m, tries - 1) + [m];
        if fate == Accepted { return true, tries; }
        if attempt == ATTEMPTS || fate == RefusedAndCancelled { return; }
      }
    }

    /** Nothing is published or logged for a payment that cannot be announced; otherwise the one message
        goes out one to three times and is logged once, with its outcome. */
    method Announce(tx: string, merchant: string, device: string, rupiah: int) returns (ok: bool)
      modifies this
      ensures if merchant == "" || device == "" || !(1 <= rupiah <= Voice.MAX_RUPIAH)
              then !ok && published == old(published) && log == old(log)
              else exists tries, payload ::
                && 1 <= tries <= 3 && Soundbox.Payload(rupiah) == Some(payload)
                && published == old(published) + Repeat(Message(Topics.DeviceTopic(merchant, device), payload), tries)
                && log == old(log) + [Entry(tx, Message(Topics.DeviceTopic(merchant, device), payload), ok)]
                && (ok <==> fates(|published| - 1) == Accepted)
    {
      hide Soundbox.Payload, Topics.DeviceTopic, Repeat;
      Speakable(rupiah);
      if merchant == "" || device == "" { return false; }
      var payload := Soundbox.Payload(rupiah);
      if payload.None? { return false; }
      var m := Message(Topics.DeviceTopic(merchant, device), payload.value);
      ghost var tries;
      ok, tries := PublishWithRetry(m);
      assert Soundbox.Payload(rupiah) == Some(m.payload) && 1 <= tries <= ATTEMPTS;
      log := log + [Entry(tx, m, ok)];
    }
  }

  /** In every run of the protocol, an announcement of a speakable amount makes the device of its own
      transaction play exactly the words for the amount that was paid, and no other announcement is
      for that transaction. */
  lemma CashierHearsThePayment(run: seq<Poller.Taken>, i: nat)
    requires Poller.Possible(Poller.INIT, run)
    requires i < |Poller.After(Poller.INIT, run).announced|
    ensures var s := Poller.After(Poller.INIT, run); var a := s.announced[i];
            && a.tx in s.rows && s.rows[a.tx].status == Transactions.PAID
            && s.rows[a.tx].device in s.merchants
            && a.topic == Topics.DeviceTopic(s.merchants[s.rows[a.tx].device], s.rows[a.tx].device)
            && (forall j :: 0 <= j < |s.announced| && j != i ==> s.announced[j].tx != a.tx)
            && (1 <= s.rows[a.tx].amount <= Voice.MAX_RUPIAH ==>
                  && Soundbox.Payload(a.rupiah).Some?
                  && Soundbox.Heard(Soundbox.PlayList(Soundbox.CString(Soundbox.Payload(a.rupiah).value)))
                     == Some(s.rows[a.tx].amount))
  {
    var s := Poller.After(Poller.INIT, run);
    Poller.AnnouncedAtMostOnce(run);
    var a := s.announced[i];
    assert Poller.Truthful(s, a);
    forall j | 0 <= j < |s.announced| && j != i ensures s.announced[j].tx != a.tx {
      if j < i {
        assert s.announced[j].tx != s.announced[i].tx;
      } else {
        assert s.announced[i].tx != s.announced[j].tx;
      }
    }
    if 1 <= s.rows[a.tx].amount <= Voice.MAX_RUPIAH {
      Soundbox.PlaysWhatWasComposed(a.rupiah, "M", "S");
    }
  }

  /** And only the cashier hears it: whatever Add and Revoke runs made of the broker's accounts, if the device is
      provisioned for its merchant then its login may receive the announcement, and no other validated device's
      login may receive it, listen for it or send one. */
  lemma OnlyTheCashierHears(run: seq<Poller.Taken>, i: nat, w: Provisioning.World, id: string, password: string,
                            m: string, d: string)
    requires Poller.Possible(Poller.INIT, run) && i < |Poller.After(Poller.INIT, run).announced|
    requires Provisioning.Valid(w)
    ensures var s := Poller.After(Poller.INIT, run); var a := s.announced[i];
            && a.tx in s.rows && s.rows[a.tx].device in s.merchants
            && var sn := s.rows[a.tx].device; var merchant := s.merchants[sn];
               && (Provisioning.Provisioned(w, id, merchant, sn, password) ==>
                     && Provisioning.Permitted(w, DeviceConfig.Username(merchant, sn),
                                               Provisioning.SubscribeLiteral(a.topic))
                     && Provisioning.Permitted(w, DeviceConfig.Username(merchant, sn),
                                               Provisioning.PublishClientReceive(a.topic)))
               && (Provisioning.ValidDevice(merchant, sn) && Provisioning.ValidDevice(m, d)
                   && !(m == merchant && d == sn) ==>
                     && !Provisioning.Permitted(w, DeviceConfig.Username(m, d), Provisioning.SubscribeLiteral(a.topic))
                     && !Provisioning.Permitted(w, DeviceConfig.Username(m, d),
                                                Provisioning.PublishClientReceive(a.topic))
                     && !Provisioning.Permitted(w, DeviceConfig.Username(m, d),
                        Provisioning.PublishClientSend(a.topic)))
  {
    hide Provisioning.Valid, Provisioning.Provisioned, Provisioning.Permitted, Provisioning.ValidDevice,
         Topics.DeviceTopic;
    CashierHearsThePayment(run, i);
    var s := Poller.After(Poller.INIT, run);
    var a := s.announced[i];
    var sn := s.rows[a.tx].device;
    var merchant := s.merchants[sn];
    if Provisioning.Provisioned(w, id, merchant, sn, password) {
      Provisioning.ProvisionedMay(w, id, merchant, sn, password, a.topic);
    }
    if Provisioning.ValidDevice(merchant, sn) && Provisioning.ValidDevice(m, d) && !(m == merchant && d == sn) {
      Provisioning.NoOtherMay(w, merchant, sn, m, d);
    }
  }
}
