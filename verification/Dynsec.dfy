/** Command correlation over the broker's broadcast response topic: any number of clients, any
    foreign, stale, duplicated, reordered, malformed or dropped traffic. */
module Dynsec {
  import opened Common
  import opened Text

  const CHANNEL_SIZE := 32

  /** Whose command a correlation string was attached to: the n-th call of a client of this
      library, or somebody else's command. */
  datatype Origin = Call(client: nat, n: nat) | Foreign(id: nat)

  /** The broker's answer to one command; it echoes the command's correlation string. */
  datatype Answer = Answer(corr: string, origin: Origin, body: string)

  /** A message on the response topic: unparseable, not exactly one response, or one answer. */
  datatype Message = Malformed | Several | One(answer: Answer)

  function Corr(prefix: string, n: nat): string {
    prefix + "-" + Decimal(n)
  }

  /** The message do() is waiting for. */
  predicate Matches(m: Message, corr: string) {
    m.One? && m.answer.corr == corr
  }

  // ----- one client -----------------------------------------------------------------------

  /** What happens while do() waits: a broadcast arrives, the loop takes one from the channel, or
      the timer or the context ends the wait. */
  datatype Event = Arrives(m: Message) | Takes | Stops

  class Client {
    const prefix: string
    var counter: nat
    var responses: seq<Message>

    constructor (prefix: string)
      ensures this.prefix == prefix && counter == 0 && responses == []
    {
      this.prefix, counter, responses := prefix, 0, [];
    }

    /** The subscription's handler: a full channel drops the message. */
    method Handle(m: Message)
      requires |responses| <= CHANNEL_SIZE
      modifies this`responses
      ensures responses == if |old(responses)| < CHANNEL_SIZE then old(responses) + [m] else old(responses)
    {
      if |responses| < CHANNEL_SIZE { responses := responses + [m]; }
    }

    /** Tags the command, drains the channel, publishes, and waits for its own answer: what it
        returns carries this call's string and arrived during this very call. */
    method Do(published: bool, events: seq<Event>) returns (r: Option<Answer>)
      requires |responses| <= CHANNEL_SIZE
      modifies this
      ensures counter == old(counter) + 1 && |responses| <= 32
      ensures r == if published then Awaited([], events, Corr(prefix, counter)) else None
      ensures r.Some? ==> r.value.corr == Corr(prefix, counter) && Arrives(One(r.value)) in events
    {
      hide Corr, Awaited;
      counter := counter + 1;
      var corr := Corr(prefix, counter);
      while responses != []
        invariant counter == old(counter) + 1 && |responses| <= CHANNEL_SIZE
        decreases |responses|
      {
        responses := responses[1..];
      }
      if !published { return None; }
      assert events[0..] == events;
      for k := 0 to |events|
        invariant counter == old(counter) + 1 && |responses| <= CHANNEL_SIZE
        invariant forall m :: m in responses ==> Arrives(m) in events
        invariant Awaited([], events, corr) == Awaited(responses, events[k..], corr)
      {
        AwaitedStep(responses, events, k, corr);
        match events[k] {
          case Arrives(m) =>
            Handle(m);
          case Takes =>
            if responses != [] {
              var m := responses[0];
              responses := responses[1..];
              if Matches(m, corr) { return Some(m.answer); }
            }
          case Stops =>
            return None;
        }
      }
      NoMoreEvents(responses, events, corr);
      r := None;
    }
  }

  /** The answer that a wait comes to, from this queue and these events on. */
  function Awaited(queue: seq<Message>, events: seq<Event>, corr: string): Option<Answer>
    decreases |events|
  {
    if events == [] then None
    else
      match events[0]
      case Arrives(m) => Awaited(if |queue| < CHANNEL_SIZE then queue + [m] else queue, events[1..], corr)
      case Takes =>
        if queue == [] then Awaited(queue, events[1..], corr)
        else if Matches(queue[0], corr) then Some(queue[0].answer)
        else Awaited(queue[1..], events[1..], corr)
      case Stops => None
  }

  lemma AwaitedStep(queue: seq<Message>, events: seq<Event>, k: nat, corr: string)
    requires k < |events|
    ensures var rest := events[k + 1..];
            Awaited(queue, events[k..], corr) ==
            match events[k]
            case Arrives(m) => Awaited(if |queue| < CHANNEL_SIZE then queue + [m] else queue, rest, corr)
            case Takes =>
              if queue == [] then Awaited(queue, rest, corr)
              else if Matches(queue[0], corr) then Some(queue[0].answer)
              else Awaited(queue[1..], rest, corr)
            case Stops => None
  {
    assert events[k..][1..] == events[k + 1..];
  }

  lemma NoMoreEvents(queue: seq<Message>, events: seq<Event>, corr: string)
    ensures Awaited(queue, events[|events|..], corr) == None
  {
  }

  function Taken(events: seq<Event>): nat {
    if events == [] then 0 else (if events[0].Takes? then 1 else 0) + Taken(events[1..])
  }

  lemma {:induction false} QueuedIsReturned(queue: seq<Message>, events: seq<Event>, corr: string, at: nat)
    requires at < |queue| && Matches(queue[at], corr) && Stops !in events && Taken(events) > at
    ensures Awaited(queue, events, corr).Some?
    decreases |events|
  {
    var rest := events[1..];
    match events[0] {
      case Arrives(m) => QueuedIsReturned(if |queue| < CHANNEL_SIZE then queue + [m] else queue, rest, corr, at);
      case Takes => if !Matches(queue[0], corr) { QueuedIsReturned(queue[1..], rest, corr, at - 1); }
      case Stops =>
    }
  }

  /** A call does not miss its answer: if it arrives while the channel has room, at most 31 others before it,
      and the loop is not stopped before it has taken as many messages, the call returns one. */
  lemma {:induction false} AnswerIsReturned(queue: seq<Message>, before: seq<Event>, m: Message, after: seq<Event>,
                                            corr: string)
    requires Matches(m, corr) && |queue| + |before| < 32 && Taken(after) > |queue| + |before|
    requires Stops !in before && Stops !in after
    ensures Awaited(queue, before + [Arrives(m)] + after, corr).Some?
    decreases |before|
  {
    var events := before + [Arrives(m)] + after;
    if before == [] {
      assert events[0] == Arrives(m) && events[1..] == after;
      QueuedIsReturned(queue + [m], after, corr, |queue|);
    } else {
      assert events[0] == before[0] && events[1..] == before[1..] + [Arrives(m)] + after;
      match before[0] {
        case Arrives(o) => AnswerIsReturned(queue + [o], before[1..], m, after, corr);
        case Takes =>
          if queue == [] || !Matches(queue[0], corr) {
            AnswerIsReturned(if queue == [] then queue else queue[1..], before[1..], m, after, corr);
          }
        case Stops =>
      }
    }
  }

  // ----- all clients, the broker and the network ------------------------------------------

  datatype Peer = Peer(prefix: string, counter: nat, waiting: bool, responses: seq<Message>)

  /** A command the broker has received, by its correlation string. */
  datatype Command = Command(corr: string, origin: Origin)

  datatype Return = Return(client: nat, n: nat, answer: Answer)

  datatype World = World(peers: map<nat, Peer>, commands: set<Command>, answers: set<Answer>, delivered: seq<Return>)

  const INIT := World(map[], {}, {}, [])

  datatype Step =
    | Join(client: nat, prefix: string)
    | Begin(client: nat, reached: bool, fails: bool)   // counter, drain, publish
    | ForeignCommand(corr: string, id: nat)
    | BrokerAnswers(command: Command, body: string)    // as often as it likes
    | Deliver(client: nat, m: Message)                 // any answer, any number of times, or junk
    | Take(client: nat)
    | Abort(client: nat)

  /** corr could be a string of this prefix. */
  predicate Tagged(corr: string, prefix: string) {
    |corr| > |prefix| && corr[..|prefix|] == prefix && corr[|prefix|] == '-'
  }

  /** Guards. The two assumptions on strangers are those the random prefix buys: prefixes differ,
      and nobody else uses them. */
  predicate Allowed(w: World, step: Step) {
    match step
    case Join(c, prefix) =>
      && c !in w.peers && '-' !in prefix
      && (forall p :: p in w.peers ==> w.peers[p].prefix != prefix)
      && (forall k :: k in w.commands ==> !Tagged(k.corr, prefix))
    case Begin(c, _, _) => c in w.peers && !w.peers[c].waiting
    case ForeignCommand(corr, _) => forall p :: p in w.peers ==> !Tagged(corr, w.peers[p].prefix)
    case BrokerAnswers(command, _) => command in w.commands
    case Deliver(c, m) => c in w.peers && (m.One? ==> m.answer in w.answers)
    case Take(c) => c in w.peers && w.peers[c].waiting && w.peers[c].responses != []
    case Abort(c) => c in w.peers && w.peers[c].waiting
  }

  function Next(w: World, step: Step): World
    requires Allowed(w, step)
  {
    match step
    case Join(c, prefix) => w.(peers := w.peers[c := Peer(prefix, 0, false, [])])
    case Begin(c, reached, fails) =>
      var p := w.peers[c].(counter := w.peers[c].counter + 1, waiting := !fails, responses := []);
      w.(peers := w.peers[c := p],
         commands := if reached then w.commands + {Command(Corr(p.prefix, p.counter), Call(c, p.counter))}
             else w.commands)
    case ForeignCommand(corr, id) => w.(commands := w.commands + {Command(corr, Foreign(id))})
    case BrokerAnswers(command, body) => w.(answers := w.answers + {Answer(command.corr, command.origin, body)})
    case Deliver(c, m) =>
      var p := w.peers[c];
      w.(peers := w.peers[c := if |p.responses| < CHANNEL_SIZE then p.(responses := p.responses + [m]) else p])
    case Take(c) =>
      var p, m := w.peers[c], w.peers[c].responses[0];
      if Matches(m, Corr(p.prefix, p.counter)) then
        w.(peers := w.peers[c := p.(responses := p.responses[1..], waiting := false)],
           delivered := w.delivered + [Return(c, p.counter, m.answer)])
      else w.(peers := w.peers[c := p.(responses := p.responses[1..])])
    case Abort(c) => w.(peers := w.peers[c := w.peers[c].(waiting := false)])
  }

  /** A prefix and a counter are read off a correlation string. */
  lemma CorrInjective(p: string, n: nat, q: string, m: nat)
    requires '-' !in p && '-' !in q && Corr(p, n) == Corr(q, m)
    ensures p == q && n == m
  {
    assert '-' !in Decimal(n) && '-' !in Decimal(m);
    assert p + ['-'] + Decimal(n) == q + ['-'] + Decimal(m);
    PairInjective(p, Decimal(n), q, Decimal(m), '-');
    DecimalInjective(n, m);
  }

  lemma CorrIsTagged(p: string, n: nat, q: string)
    requires '-' !in p && '-' !in q
    ensures Tagged(Corr(p, n), q) <==> p == q
  {
    var c := Corr(p, n);
    assert c == p + ['-'] + Decimal(n);
    IndexOfFirst(p, '-', Decimal(n));
    assert c[..|p|] == p && c[|p|] == '-';
    if Tagged(c, q) {
      var rest := c[|q| + 1..];
      assert c == q + ['-'] + rest;
      IndexOfFirst(q, '-', rest);
    }
  }

  /** A command of ours carries its own call's string; nobody else's carries one of our prefixes. */
  predicate HonestCommand(w: World, k: Command) {
    if k.origin.Call? then
      && k.origin.client in w.peers
      && k.origin.n <= w.peers[k.origin.client].counter
      && k.corr == Corr(w.peers[k.origin.client].prefix, k.origin.n)
    else forall p :: p in w.peers ==> !Tagged(k.corr, w.peers[p].prefix)
  }

  predicate PeersOk(w: World) {
    && (forall p :: p in w.peers ==> '-' !in w.peers[p].prefix)
    && (forall p, q :: p in w.peers && q in w.peers && w.peers[p].prefix == w.peers[q].prefix ==> p == q)
    && (forall p, m :: p in w.peers && m in w.peers[p].responses && m.One? ==> m.answer in w.answers)
  }

  predicate ReturnsOk(w: World) {
    && (forall i :: 0 <= i < |w.delivered| ==>
          && w.delivered[i].client in w.peers
          && w.delivered[i].n <= w.peers[w.delivered[i].client].counter
          && (w.peers[w.delivered[i].client].waiting ==> w.delivered[i].n < w.peers[w.delivered[i].client].counter)
          && w.delivered[i].answer in w.answers
          && w.delivered[i].answer.origin == Call(w.delivered[i].client, w.delivered[i].n))
    && (forall i, j :: 0 <= i < j < |w.delivered| ==>
          w.delivered[i].client != w.delivered[j].client || w.delivered[i].n != w.delivered[j].n)
  }

  predicate Inv(w: World) {
    && PeersOk(w)
    && (forall k :: k in w.commands ==> HonestCommand(w, k))
    && (forall a :: a in w.answers ==> Command(a.corr, a.origin) in w.commands)
    && ReturnsOk(w)
  }

  /** An answer that matches a waiting call was given to that very call's command. */
  lemma MatchIsOwn(w: World, c: nat, a: Answer)
    requires Inv(w) && c in w.peers && a in w.answers && a.corr == Corr(w.peers[c].prefix, w.peers[c].counter)
    ensures a.origin == Call(c, w.peers[c].counter)
  {
    var k := Command(a.corr, a.origin);
    assert HonestCommand(w, k);
    var p := w.peers[c];
    if k.origin.Call? {
      CorrInjective(p.prefix, p.counter, w.peers[k.origin.client].prefix, k.origin.n);
    } else {
      CorrIsTagged(p.prefix, p.counter, p.prefix);
    }
  }

  lemma CommandsKept(w: World, step: Step)
    requires Inv(w) && Allowed(w, step)
    ensures forall k :: k in Next(w, step).commands ==> HonestCommand(Next(w, step), k)
  {
    var n := Next(w, step);
    forall k | k in n.commands ensures HonestCommand(n, k) {
      if k in w.commands {
        assert HonestCommand(w, k);
        if step.Join? && k.origin.Foreign? { assert !Tagged(k.corr, step.prefix); }
      }
    }
  }

  lemma PeersKept(w: World, step: Step)
    requires Inv(w) && Allowed(w, step)
    ensures PeersOk(Next(w, step))
  {
    var n := Next(w, step);
    forall p, m | p in n.peers && m in n.peers[p].responses && m.One? ensures m.answer in n.answers {
      assert p in w.peers && (m in w.peers[p].responses || (step.Deliver? && m == step.m));
    }
  }

  lemma ReturnsKept(w: World, step: Step)
    requires Inv(w) && Allowed(w, step)
    ensures ReturnsOk(Next(w, step))
  {
    if step.Take? {
      var p := w.peers[step.client];
      var m := p.responses[0];
      if Matches(m, Corr(p.prefix, p.counter)) {
        assert m in p.responses;
        MatchIsOwn(w, step.client, m.answer);
      }
    }
  }

  lemma StepKeeps(w: World, step: Step)
    requires Inv(w) && Allowed(w, step)
    ensures Inv(Next(w, step))
  {
    CommandsKept(w, step);
    PeersKept(w, step);
    ReturnsKept(w, step);
  }

  predicate Possible(w: World, run: seq<Step>)
    decreases |run|
  {
    run == [] || (Allowed(w, run[0]) && Possible(Next(w, run[0]), run[1..]))
  }

  function After(w: World, run: seq<Step>): World
    requires Possible(w, run)
    decreases |run|
  {
    if run == [] then w else After(Next(w, run[0]), run[1..])
  }

  lemma {:induction false} RunKeeps(w: World, run: seq<Step>)
    requires Inv(w) && Possible(w, run)
    ensures Inv(After(w, run))
    decreases |run|
  {
    if run != [] {
      StepKeeps(w, run[0]);
      RunKeeps(Next(w, run[0]), run[1..]);
    }
  }

  /** In every run, whatever traffic there is, an answer that a call returns is the broker's answer
      to the command published in that very call, and a call returns at most one. */
  lemma ReturnsAreOwnAnswers(run: seq<Step>)
    requires Possible(INIT, run)
    ensures var w := After(INIT, run);
            && (forall i :: 0 <= i < |w.delivered| ==>
                  && w.delivered[i].answer in w.answers
                  && w.delivered[i].answer.origin == Call(w.delivered[i].client, w.delivered[i].n))
            && (forall i, j :: 0 <= i < j < |w.delivered| ==>
                  w.delivered[i].client != w.delivered[j].client || w.delivered[i].n != w.delivered[j].n)
  {
    RunKeeps(INIT, run);
  }

  /** And they do return: a call whose command reaches the broker, is answered, delivered and taken, returns that
      answer. */
  lemma OneCallIsAnswered(w: World, c: nat, body: string)
    requires Inv(w) && c in w.peers && !w.peers[c].waiting
    ensures var n := w.peers[c].counter + 1;
            var corr := Corr(w.peers[c].prefix, n);
            var a := Answer(corr, Call(c, n), body);
            var run := [Begin(c, true, false), BrokerAnswers(Command(corr, Call(c, n)), body), Deliver(c, One(a)),
                Take(c)];
            Possible(w, run) && After(w, run).delivered == w.delivered + [Return(c, n, a)]
  {
    hide Corr, Possible, After, Inv;
    var n := w.peers[c].counter + 1;
    var corr := Corr(w.peers[c].prefix, n);
    var a := Answer(corr, Call(c, n), body);
    var s1, s2, s3, s4 := Begin(c, true, false), BrokerAnswers(Command(corr, Call(c, n)), body), Deliver(c, One(a)),
    Take(c);
    var w1 := Next(w, s1);
    var w2 := Next(w1, s2);
    var w3 := Next(w2, s3);
    assert w3.peers[c].responses == [One(a)];
    assert [s4] + [] == [s4] && [s3] + [s4] == [s3, s4] && [s2] + [s3, s4] == [s2, s3, s4];
    assert [s1] + [s2, s3, s4] == [s1, s2, s3, s4];
    NoStep(Next(w3, s4));
    FirstStep(w3, s4, []);
    FirstStep(w2, s3, [s4]);
    FirstStep(w1, s2, [s3, s4]);
    FirstStep(w, s1, [s2, s3, s4]);
  }

  /** A client that has just joined, or whose call has ended, can call. */
  lemma CallsGoOn(w: World, step: Step, reached: bool, fails: bool)
    requires Inv(w) && Allowed(w, step)
    ensures step.Join? || step.Abort? ==> Allowed(Next(w, step), Begin(step.client, reached, fails))
    ensures step.Take? && Matches(w.peers[step.client].responses[0],
                                  Corr(w.peers[step.client].prefix, w.peers[step.client].counter)) ==>
              Allowed(Next(w, step), Begin(step.client, reached, fails))
  {
    hide Corr;
  }

  lemma NoStep(w: World)
    ensures Possible(w, []) && After(w, []) == w
  {
  }

  lemma FirstStep(w: World, step: Step, rest: seq<Step>)
    requires Allowed(w, step) && Possible(Next(w, step), rest)
    ensures Possible(w, [step] + rest) && After(w, [step] + rest) == After(Next(w, step), rest)
  {
    assert ([step] + rest)[1..] == rest;
  }
}
