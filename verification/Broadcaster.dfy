/** The live audit feed: broadcasts under a shared lock, subscriptions under the
    exclusive one, and channels closed after the lock is released. */
module Broadcaster {

  type Message = string

  const CAPACITY: nat := 64

  /** A non-blocking send: a full buffer drops the message. */
  function Offer(buffer: seq<Message>, m: Message): seq<Message> {
    if |buffer| < CAPACITY then buffer + [m] else buffer
  }

  // ---------------------------------------------------------------- the interleaved system

  /** A send of a broadcast's message that found `depth` messages buffered. */
  datatype Attempt = Attempt(broadcast: nat, message: Message, depth: nat)

  /** `received` and `attempts` record the history of the channel. */
  datatype Channel = Channel(buffer: seq<Message>, closed: bool, received: seq<Message>, attempts: seq<Attempt>)

  /** A call of Broadcast; while active it holds the shared lock. */
  datatype Broadcast = Broadcast(message: Message, targets: set<nat>, remaining: set<nat>, active: bool)

  /** Channels are numbered; `removed` is every channel ever unsubscribed, `closing` the
      unsubscribes between their unlock and their close. */
  datatype System = System(
    channels: seq<Channel>, subscribers: set<nat>, removed: set<nat>, closing: multiset<nat>,
    broadcasts: seq<Broadcast>, panicked: bool)

  const EMPTY: System := System([], {}, {}, multiset{}, [], false)

  datatype Step =
    | Subscribe
    | Remove(ch: nat)
    | Close(ch: nat)
    | Begin(message: Message)
    | Send(b: nat, ch: nat)
    | End(b: nat)
    | Receive(ch: nat)

  /** No broadcast holds the shared lock. */
  predicate Unlocked(s: System) { forall b :: 0 <= b < |s.broadcasts| ==> !s.broadcasts[b].active }

  predicate Enabled(s: System, step: Step) {
    match step
    case Subscribe => Unlocked(s)
    case Remove(ch) => Unlocked(s) && ch < |s.channels|
    case Close(ch) => ch in s.closing && ch < |s.channels|
    case Begin(_) => true
    case Send(b, ch) =>
      b < |s.broadcasts| && s.broadcasts[b].active && ch in s.broadcasts[b].remaining && ch < |s.channels|
    case End(b) => b < |s.broadcasts| && s.broadcasts[b].active && s.broadcasts[b].remaining == {}
    case Receive(ch) => ch < |s.channels| && s.channels[ch].buffer != []
  }

  function Tried(c: Channel, b: nat, m: Message): Channel {
    c.(buffer := Offer(c.buffer, m), attempts := c.attempts + [Attempt(b, m, |c.buffer|)])
  }

  /** A send on a closed channel, or a second close, panics. */
  function Next(s: System, step: Step): System
    requires Enabled(s, step)
  {
    match step
    case Subscribe =>
      s.(channels := s.channels + [Channel([], false, [], [])], subscribers := s.subscribers + {|s.channels|})
    case Remove(ch) =>
      s.(subscribers := s.subscribers - {ch}, removed := s.removed + {ch}, closing := s.closing + multiset{ch})
    case Close(ch) =>
      s.(closing := s.closing - multiset{ch}, panicked := s.panicked || s.channels[ch].closed,
         channels := s.channels[ch := s.channels[ch].(closed := true)])
    case Begin(m) => s.(broadcasts := s.broadcasts + [Broadcast(m, s.subscribers, s.subscribers, true)])
    case Send(b, ch) =>
      var call := s.broadcasts[b];
      s.(broadcasts := s.broadcasts[b := call.(remaining := call.remaining - {ch})],
         panicked := s.panicked || s.channels[ch].closed,
         channels := s.channels[ch := Tried(s.channels[ch], b, call.message)])
    case End(b) => s.(broadcasts := s.broadcasts[b := s.broadcasts[b].(active := false)])
    case Receive(ch) =>
      var c := s.channels[ch];
      s.(channels := s.channels[ch := c.(buffer := c.buffer[1..], received := c.received + [c.buffer[0]])])
  }

  predicate Legal(s: System, steps: seq<Step>)
    decreases |steps|
  {
    steps == [] || (Enabled(s, steps[0]) && Legal(Next(s, steps[0]), steps[1..]))
  }

  function Exec(s: System, steps: seq<Step>): System
    requires Legal(s, steps)
    decreases |steps|
  {
    if steps == [] then s else Exec(Next(s, steps[0]), steps[1..])
  }

  /** Callers unsubscribe each channel at most once. */
  predicate OnceEach(steps: seq<Step>) {
    forall i, j :: 0 <= i < j < |steps| && steps[i].Remove? && steps[j].Remove? ==> steps[i].ch != steps[j].ch
  }

  // ---------------------------------------------------------------- safety

  /** A broadcast in progress targets exactly the current subscribers, and no current
      subscriber has been removed; a removed channel awaits at most one close. */
  ghost predicate Safe(s: System) {
    && !s.panicked
    && s.subscribers !! s.removed
    && (forall ch :: ch in s.subscribers ==> ch < |s.channels|)
    && (forall ch :: ch in s.removed ==> ch < |s.channels|)
    && (forall b, ch :: 0 <= b < |s.broadcasts| && ch in s.broadcasts[b].targets ==> ch < |s.channels|)
    && (forall ch :: 0 <= ch < |s.channels| && s.channels[ch].closed ==> ch in s.removed && s.closing[ch] == 0)
    && (forall ch :: ch in s.closing ==> ch in s.removed && s.closing[ch] == 1)
    && (forall b :: 0 <= b < |s.broadcasts| && s.broadcasts[b].active ==> s.broadcasts[b].targets == s.subscribers)
    && (forall b :: 0 <= b < |s.broadcasts| ==> s.broadcasts[b].remaining <= s.broadcasts[b].targets)
  }

  lemma SafeStep(s: System, step: Step)
    requires Safe(s) && Enabled(s, step) && (step.Remove? ==> step.ch !in s.removed)
    ensures Safe(Next(s, step))
  {
    match step
    case Remove(ch) => RemoveSafe(s, ch);
    case Close(ch) => CloseSafe(s, ch);
    case Send(b, ch) => SendSafe(s, b, ch);
    case _ => ElsewhereSafe(s, step);
  }

  lemma RemoveSafe(s: System, ch: nat)
    requires Safe(s) && Enabled(s, Remove(ch)) && ch !in s.removed
    ensures Safe(Next(s, Remove(ch)))
  {
    assert s.closing[ch] == 0;
  }

  lemma CloseSafe(s: System, ch: nat)
    requires Safe(s) && Enabled(s, Close(ch))
    ensures Safe(Next(s, Close(ch)))
  {
    assert s.closing[ch] == 1 && !s.channels[ch].closed;
    var t := Next(s, Close(ch));
    assert forall c :: t.closing[c] == if c == ch then 0 else s.closing[c];
  }

  /** The target of a send is a current subscriber, so its channel is open. */
  lemma SendSafe(s: System, b: nat, ch: nat)
    requires Safe(s) && Enabled(s, Send(b, ch))
    ensures Safe(Next(s, Send(b, ch)))
  {
    assert ch in s.broadcasts[b].targets;
    assert ch in s.subscribers && !s.channels[ch].closed;
  }

  lemma ElsewhereSafe(s: System, step: Step)
    requires Safe(s) && Enabled(s, step) && !step.Remove? && !step.Close? && !step.Send?
    ensures Safe(Next(s, step))
  {
    if step.Subscribe? {
      assert |s.channels| !in s.removed && |s.channels| !in s.subscribers;
    }
  }

  /** No send reaches a closed channel and no channel is closed twice, over every
      interleaving in which each channel is unsubscribed at most once. */
  lemma {:induction false} NeverPanics(s: System, steps: seq<Step>)
    requires Safe(s) && Legal(s, steps) && OnceEach(steps)
    requires forall i :: 0 <= i < |steps| && steps[i].Remove? ==> steps[i].ch !in s.removed
    ensures Safe(Exec(s, steps))
    decreases |steps|
  {
    if steps != [] {
      SafeStep(s, steps[0]);
      forall i | 0 <= i < |steps[1..]| && steps[1..][i].Remove?
        ensures steps[1..][i].ch !in Next(s, steps[0]).removed
      {
        assert steps[1..][i] == steps[i + 1];
      }
      NeverPanics(Next(s, steps[0]), steps[1..]);
    }
  }

  lemma ExecCons(s: System, step: Step, rest: seq<Step>)
    requires Enabled(s, step) && Legal(Next(s, step), rest)
    ensures Legal(s, [step] + rest) && Exec(s, [step] + rest) == Exec(Next(s, step), rest)
  {
    assert ([step] + rest)[1..] == rest;
  }

  /** The restriction is needed: unsubscribing a channel twice closes it twice. */
  lemma SecondUnsubscribePanics(s: System, ch: nat)
    requires Unlocked(s) && ch < |s.channels|
    ensures var steps := [Remove(ch)] + ([Close(ch)] + ([Remove(ch)] + ([Close(ch)] + [])));
            Legal(s, steps) && Exec(s, steps).panicked
  {
    var s1 := Next(s, Remove(ch));
    var s2 := Next(s1, Close(ch));
    var s3 := Next(s2, Remove(ch));
    ExecCons(s3, Close(ch), []);
    ExecCons(s2, Remove(ch), [Close(ch)] + []);
    ExecCons(s1, Close(ch), [Remove(ch)] + ([Close(ch)] + []));
    ExecCons(s, Remove(ch), [Close(ch)] + ([Remove(ch)] + ([Close(ch)] + [])));
  }

  // ---------------------------------------------------------------- the exact form

  /** What every step keeps, however often callers unsubscribe: a subscriber's channel is
      neither closed nor about to be, and a broadcast in progress targets the subscribers. */
  ghost predicate Tidy(s: System) {
    && (forall ch :: ch in s.subscribers ==> ch < |s.channels| && !s.channels[ch].closed && s.closing[ch] == 0)
    && (forall ch :: ch in s.closing ==> ch < |s.channels|)
    && (forall b :: 0 <= b < |s.broadcasts| && s.broadcasts[b].active ==>
          s.broadcasts[b].remaining <= s.broadcasts[b].targets == s.subscribers)
  }

  predicate ClosedIn(s: System, ch: nat) { ch < |s.channels| && s.channels[ch].closed }

  lemma TidyStep(s: System, step: Step)
    requires Tidy(s) && Enabled(s, step)
    ensures Tidy(Next(s, step))
  {
    match step
    case Close(ch) =>
      assert ch !in s.subscribers;
    case Remove(ch) =>
      assert forall c :: c != ch ==> Next(s, step).closing[c] == s.closing[c];
    case _ =>
  }

  /** No send meets a closed channel; a step panics exactly when it closes one again. */
  lemma StepPanicsIff(s: System, step: Step)
    requires Tidy(s) && Enabled(s, step)
    ensures step.Send? ==> !ClosedIn(s, step.ch)
    ensures Next(s, step).panicked <==> s.panicked || (step.Close? && ClosedIn(s, step.ch))
    ensures forall ch :: ClosedIn(Next(s, step), ch) <==> ClosedIn(s, ch) || step == Close(ch)
  {
    if step.Send? {
      assert step.ch in s.subscribers;
    }
  }

  /** Some close in the run hits a channel that is closed already, from the start or by an
      earlier step. */
  predicate ClosesTwice(s: System, steps: seq<Step>) {
    exists i :: 0 <= i < |steps| && steps[i].Close? && (ClosedIn(s, steps[i].ch) || steps[i] in steps[..i])
  }

  lemma ClosesTwiceCons(s: System, t: System, step: Step, rest: seq<Step>)
    requires forall ch :: ClosedIn(t, ch) <==> ClosedIn(s, ch) || step == Close(ch)
    ensures ClosesTwice(s, [step] + rest) <==> (step.Close? && ClosedIn(s, step.ch)) || ClosesTwice(t, rest)
  {
    var steps := [step] + rest;
    forall i | 0 <= i < |rest| ensures steps[i + 1] == rest[i] && steps[..i + 1] == [step] + rest[..i] {
    }
    if ClosesTwice(s, steps) {
      var i :| 0 <= i < |steps| && steps[i].Close? && (ClosedIn(s, steps[i].ch) || steps[i] in steps[..i]);
      assert i > 0 ==> steps[i] == rest[i - 1] && steps[..i] == [step] + rest[..i - 1];
    }
    if ClosesTwice(t, rest) {
      var i :| 0 <= i < |rest| && rest[i].Close? && (ClosedIn(t, rest[i].ch) || rest[i] in rest[..i]);
      assert steps[i + 1] == rest[i] && steps[..i + 1] == [step] + rest[..i];
    }
    assert steps[0] == step;
  }

  /** Exactly when a run panics, however often callers unsubscribe: when some channel is
      closed twice. No send ever contributes. */
  lemma {:induction false} PanicsIff(s: System, steps: seq<Step>)
    requires Tidy(s) && Legal(s, steps)
    ensures Exec(s, steps).panicked <==> s.panicked || ClosesTwice(s, steps)
    decreases |steps|
  {
    if steps != [] {
      TidyStep(s, steps[0]);
      StepPanicsIff(s, steps[0]);
      PanicsIff(Next(s, steps[0]), steps[1..]);
      ClosesTwiceCons(s, Next(s, steps[0]), steps[0], steps[1..]);
      assert [steps[0]] + steps[1..] == steps;
    }
  }

  /** Every send of every run finds its channel open. */
  lemma {:induction false} SendsFindOpenChannels(s: System, steps: seq<Step>, k: nat)
    requires Tidy(s) && Legal(s, steps) && k < |steps| && steps[k].Send?
    ensures Legal(s, steps[..k]) && !ClosedIn(Exec(s, steps[..k]), steps[k].ch)
    decreases k
  {
    StepPanicsIff(s, steps[0]);
    if k > 0 {
      TidyStep(s, steps[0]);
      SendsFindOpenChannels(Next(s, steps[0]), steps[1..], k - 1);
      assert steps[..k] == [steps[0]] + steps[1..][..k - 1];
      ExecCons(s, steps[0], steps[1..][..k - 1]);
    }
  }

  // ---------------------------------------------------------------- delivery

  /** The messages whose send found room, in the order they were sent. */
  function Accepted(attempts: seq<Attempt>): seq<Message> {
    if attempts == [] then []
    else
      var a := attempts[|attempts| - 1];
      Accepted(attempts[..|attempts| - 1]) + if a.depth < CAPACITY then [a.message] else []
  }

  /** A channel's buffer is bounded, and what its subscriber has received and has yet to
      receive is what was accepted, in send order: only sends that found it full are missing. */
  ghost predicate InOrder(c: Channel) {
    |c.buffer| <= CAPACITY && c.received + c.buffer == Accepted(c.attempts)
  }

  lemma TriedInOrder(c: Channel, b: nat, m: Message)
    requires InOrder(c)
    ensures InOrder(Tried(c, b, m))
  {
    assert Tried(c, b, m).attempts[..|c.attempts|] == c.attempts;
  }

  /** How often a broadcast has been tried on a channel. */
  function Tries(attempts: seq<Attempt>, b: nat): nat {
    if attempts == [] then 0
    else Tries(attempts[..|attempts| - 1], b) + if attempts[|attempts| - 1].broadcast == b then 1 else 0
  }

  lemma TriesAppend(attempts: seq<Attempt>, a: Attempt, b: nat)
    ensures Tries(attempts + [a], b) == Tries(attempts, b) + if a.broadcast == b then 1 else 0
  {
    assert (attempts + [a])[..|attempts|] == attempts;
  }

  /** A broadcast has been tried exactly once on each target it has passed, and on no
      other channel. */
  ghost predicate TriedOnce(s: System, b: nat, ch: nat) {
    ch < |s.channels| ==>
      Tries(s.channels[ch].attempts, b)
      == if b < |s.broadcasts| && ch in s.broadcasts[b].targets && ch !in s.broadcasts[b].remaining then 1 else 0
  }

  ghost predicate Delivers(s: System) {
    && (forall ch :: 0 <= ch < |s.channels| ==> InOrder(s.channels[ch]))
    && (forall b: nat, ch: nat :: TriedOnce(s, b, ch))
    && (forall ch, i :: 0 <= ch < |s.channels| && 0 <= i < |s.channels[ch].attempts| ==>
          Named(s, s.channels[ch].attempts[i]))
  }

  /** An attempt carries its broadcast's message. */
  predicate Named(s: System, a: Attempt) {
    a.broadcast < |s.broadcasts| && a.message == s.broadcasts[a.broadcast].message
  }

  lemma InOrderStep(s: System, step: Step, ch: nat)
    requires Enabled(s, step) && (forall c :: 0 <= c < |s.channels| ==> InOrder(s.channels[c]))
    requires ch < |Next(s, step).channels|
    ensures InOrder(Next(s, step).channels[ch])
  {
    match step
    case Send(b, c) => TriedInOrder(s.channels[c], b, s.broadcasts[b].message);
    case Receive(c) =>
      assert s.channels[c].received + [s.channels[c].buffer[0]] + s.channels[c].buffer[1..]
             == s.channels[c].received + s.channels[c].buffer;
    case _ =>
  }

  lemma TriedOnceStep(s: System, step: Step, b: nat, ch: nat)
    requires Safe(s) && Enabled(s, step) && TriedOnce(s, b, ch)
    ensures TriedOnce(Next(s, step), b, ch)
  {
    if step.Send? && step.ch == ch {
      TriesAppend(s.channels[ch].attempts, Attempt(step.b, s.broadcasts[step.b].message, |s.channels[ch].buffer|), b);
    }
  }

  lemma NamedStep(s: System, step: Step, ch: nat, i: nat)
    requires Enabled(s, step)
    requires forall c, j :: 0 <= c < |s.channels| && 0 <= j < |s.channels[c].attempts| ==>
               Named(s, s.channels[c].attempts[j])
    requires ch < |Next(s, step).channels| && i < |Next(s, step).channels[ch].attempts|
    ensures Named(Next(s, step), Next(s, step).channels[ch].attempts[i])
  {
  }

  /** Over every such interleaving: buffers hold at most 64 messages; each subscriber gets
      the accepted messages in send order; and every broadcast is tried exactly once on
      each channel subscribed while it held the lock. */
  lemma {:induction false} DeliversAlways(s: System, steps: seq<Step>)
    requires Safe(s) && Delivers(s) && Legal(s, steps) && OnceEach(steps)
    requires forall i :: 0 <= i < |steps| && steps[i].Remove? ==> steps[i].ch !in s.removed
    ensures Safe(Exec(s, steps)) && Delivers(Exec(s, steps))
    decreases |steps|
  {
    if steps != [] {
      var s' := Next(s, steps[0]);
      SafeStep(s, steps[0]);
      forall ch | 0 <= ch < |s'.channels| ensures InOrder(s'.channels[ch]) { InOrderStep(s, steps[0], ch); }
      forall b: nat, ch: nat ensures TriedOnce(s', b, ch) { TriedOnceStep(s, steps[0], b, ch); }
      forall ch, i | 0 <= ch < |s'.channels| && 0 <= i < |s'.channels[ch].attempts|
        ensures Named(s', s'.channels[ch].attempts[i])
      {
        NamedStep(s, steps[0], ch, i);
      }
      forall i | 0 <= i < |steps[1..]| && steps[1..][i].Remove? ensures steps[1..][i].ch !in s'.removed {
        assert steps[1..][i] == steps[i + 1];
      }
      DeliversAlways(s', steps[1..]);
    }
  }

  lemma {:induction false} TriesWitness(attempts: seq<Attempt>, b: nat) returns (i: nat)
    requires Tries(attempts, b) == 1
    ensures i < |attempts| && attempts[i].broadcast == b
    ensures forall j :: 0 <= j < |attempts| && attempts[j].broadcast == b ==> j == i
  {
    var n := |attempts| - 1;
    if attempts[n].broadcast == b {
      i := n;
      TriesNone(attempts[..n], b);
    } else {
      i := TriesWitness(attempts[..n], b);
    }
  }

  lemma {:induction false} TriesNone(attempts: seq<Attempt>, b: nat)
    requires Tries(attempts, b) == 0
    ensures forall j :: 0 <= j < |attempts| ==> attempts[j].broadcast != b
  {
    if attempts != [] {
      TriesNone(attempts[..|attempts| - 1], b);
    }
  }

  lemma {:induction false} AcceptedHas(attempts: seq<Attempt>, i: nat)
    requires i < |attempts| && attempts[i].depth < CAPACITY
    ensures attempts[i].message in Accepted(attempts)
  {
    if i < |attempts| - 1 {
      AcceptedHas(attempts[..|attempts| - 1], i);
    }
  }

  /** A finished broadcast reached each of its targets unless that one send found 64
      messages waiting. */
  lemma FinishedBroadcastReaches(steps: seq<Step>, b: nat, ch: nat) returns (i: nat)
    requires Legal(EMPTY, steps) && OnceEach(steps)
    requires var s := Exec(EMPTY, steps);
             b < |s.broadcasts| && ch < |s.channels| && ch in s.broadcasts[b].targets && s.broadcasts[b].remaining == {}
    ensures var (s, c) := (Exec(EMPTY, steps), Exec(EMPTY, steps).channels[ch]);
            && i < |c.attempts| && c.attempts[i].broadcast == b
            && (forall j :: 0 <= j < |c.attempts| && c.attempts[j].broadcast == b ==> j == i)
            && (c.attempts[i].depth < CAPACITY ==> s.broadcasts[b].message in c.received + c.buffer)
  {
    DeliversAlways(EMPTY, steps);
    var (s, c) := (Exec(EMPTY, steps), Exec(EMPTY, steps).channels[ch]);
    assert TriedOnce(s, b, ch);
    i := TriesWitness(c.attempts, b);
    assert Named(s, c.attempts[i]);
    if c.attempts[i].depth < CAPACITY {
      AcceptedHas(c.attempts, i);
    }
  }

  // ---------------------------------------------------------------- from the steps alone

  lemma {:induction false} PrefixOf(s: System, steps: seq<Step>, k: nat)
    requires Legal(s, steps) && k <= |steps|
    ensures Legal(s, steps[..k]) && Legal(Exec(s, steps[..k]), steps[k..])
    ensures Exec(Exec(s, steps[..k]), steps[k..]) == Exec(s, steps)
    decreases k
  {
    if k > 0 {
      PrefixOf(Next(s, steps[0]), steps[1..], k - 1);
      assert steps[..k][1..] == steps[1..][..k - 1] && steps[1..][k - 1..] == steps[k..];
    }
  }

  /** The subscribers are the channels ever made for which no unsubscribe has begun. */
  lemma {:induction false} SubscribedFrom(s: System, steps: seq<Step>, ch: nat)
    requires Legal(s, steps) && forall c :: c in s.subscribers ==> c < |s.channels|
    ensures |s.channels| <= |Exec(s, steps).channels|
    ensures ch in Exec(s, steps).subscribers
            <==> ch < |Exec(s, steps).channels| && Remove(ch) !in steps
                 && (ch < |s.channels| ==> ch in s.subscribers)
    decreases |steps|
  {
    if steps != [] {
      assert steps == [steps[0]] + steps[1..];
      SubscribedFrom(Next(s, steps[0]), steps[1..], ch);
    }
  }

  lemma SubscribedIff(steps: seq<Step>, ch: nat)
    requires Legal(EMPTY, steps)
    ensures ch in Exec(EMPTY, steps).subscribers <==> ch < |Exec(EMPTY, steps).channels| && Remove(ch) !in steps
  {
    SubscribedFrom(EMPTY, steps, ch);
  }

  /** What has been put into a channel, taken out again or not. */
  function Mail(c: Channel): seq<Message> { c.received + c.buffer }

  /** Nothing that is in a channel is ever lost, and nothing gets in front of it. */
  lemma {:induction false} MailStays(s: System, steps: seq<Step>, ch: nat)
    requires Legal(s, steps) && ch < |s.channels|
    ensures ch < |Exec(s, steps).channels| && Mail(s.channels[ch]) <= Mail(Exec(s, steps).channels[ch])
    decreases |steps|
  {
    if steps != [] {
      var t := Next(s, steps[0]);
      assert steps[0] == Receive(ch) ==> Mail(t.channels[ch]) == Mail(s.channels[ch]);
      MailStays(t, steps[1..], ch);
    }
  }

  /** A broadcast that has passed a channel does not come back to it. */
  lemma {:induction false} NoSecondSend(s: System, steps: seq<Step>, b: nat, ch: nat)
    requires Legal(s, steps) && b < |s.broadcasts| && ch !in s.broadcasts[b].remaining
    ensures Send(b, ch) !in steps
    decreases |steps|
  {
    if steps != [] {
      NoSecondSend(Next(s, steps[0]), steps[1..], b, ch);
      assert steps == [steps[0]] + steps[1..];
    }
  }

  /** A broadcast that ends has sent to each channel it still had to, exactly once. */
  lemma {:induction false} SendsBeforeEnd(s: System, steps: seq<Step>, b: nat, ch: nat) returns (j: nat)
    requires Legal(s, steps) && b < |s.broadcasts|
    requires s.broadcasts[b].active && ch in s.broadcasts[b].remaining
    requires b < |Exec(s, steps).broadcasts| && !Exec(s, steps).broadcasts[b].active
    ensures j < |steps| && steps[j] == Send(b, ch) && forall i :: 0 <= i < |steps| && steps[i] == Send(b, ch) ==> i == j
    ensures Legal(s, steps[..j]) && b < |Exec(s, steps[..j]).broadcasts|
    ensures Exec(s, steps[..j]).broadcasts[b].message == s.broadcasts[b].message
    decreases |steps|
  {
    var t := Next(s, steps[0]);
    if steps[0] == Send(b, ch) {
      NoSecondSend(t, steps[1..], b, ch);
      j := 0;
      forall i | 1 <= i < |steps| ensures steps[i] != Send(b, ch) {
        assert steps[i] == steps[1..][i - 1];
      }
    } else {
      var i := SendsBeforeEnd(t, steps[1..], b, ch);
      j := i + 1;
      assert steps[..j][1..] == steps[1..][..i];
      assert forall k :: 1 <= k < |steps| ==> steps[k] == steps[1..][k - 1];
    }
  }

  /** A message broadcast and finished was sent exactly once to everyone subscribed when the
      broadcast began, and is among what that subscriber gets unless 64 messages were waiting. */
  lemma BroadcastReaches(steps: seq<Step>, k: nat, m: Message, ch: nat) returns (j: nat)
    requires Legal(EMPTY, steps) && k < |steps| && steps[k] == Begin(m)
    requires Legal(EMPTY, steps[..k]) && ch in Exec(EMPTY, steps[..k]).subscribers
    requires ch < |Exec(EMPTY, steps[..k]).channels|
    requires var b := |Exec(EMPTY, steps[..k]).broadcasts|;
             b < |Exec(EMPTY, steps).broadcasts| && !Exec(EMPTY, steps).broadcasts[b].active
    ensures var b := |Exec(EMPTY, steps[..k]).broadcasts|;
            && k < j < |steps| && steps[j] == Send(b, ch)
            && (forall i :: k < i < |steps| && steps[i] == Send(b, ch) ==> i == j)
    ensures Legal(EMPTY, steps[..j]) && ch < |Exec(EMPTY, steps[..j]).channels| && ch < |Exec(EMPTY, steps).channels|
    ensures |Exec(EMPTY, steps[..j]).channels[ch].buffer| < 64 ==> m in Mail(Exec(EMPTY, steps).channels[ch])
  {
    var before := Exec(EMPTY, steps[..k]);
    var b := |before.broadcasts|;
    PrefixOf(EMPTY, steps, k);
    var rest := steps[k..];
    var i := SendsBeforeEnd(Next(before, Begin(m)), rest[1..], b, ch);
    j := k + 1 + i;
    assert forall n :: k < n < |steps| ==> steps[n] == rest[1..][n - k - 1];
    SentAt(steps, k, i);
    PrefixOf(EMPTY, steps, j);
    Arrives(Exec(EMPTY, steps[..j]), steps[j..], b, ch, m);
  }

  /** The state at a later step, seen from an earlier one. */
  lemma SentAt(steps: seq<Step>, k: nat, i: nat)
    requires Legal(EMPTY, steps) && k + 1 + i < |steps| && Legal(EMPTY, steps[..k])
    requires Legal(Exec(EMPTY, steps[..k]), steps[k..])
    ensures Legal(EMPTY, steps[..k + 1 + i])
    ensures var s := Next(Exec(EMPTY, steps[..k]), steps[k]);
            Legal(s, steps[k..][1..][..i]) && Exec(EMPTY, steps[..k + 1 + i]) == Exec(s, steps[k..][1..][..i])
  {
    var j := k + 1 + i;
    PrefixOf(EMPTY, steps, j);
    PrefixOf(EMPTY, steps[..j], k);
    assert steps[..j][..k] == steps[..k] && steps[..j][k..] == steps[k..j];
    assert steps[k..j][1..] == steps[k..][1..][..i];
  }

  lemma Arrives(s: System, steps: seq<Step>, b: nat, ch: nat, m: Message)
    requires Legal(s, steps) && steps != [] && steps[0] == Send(b, ch) && s.broadcasts[b].message == m
    ensures ch < |s.channels| && ch < |Exec(s, steps).channels|
    ensures |s.channels[ch].buffer| < 64 ==> m in Mail(Exec(s, steps).channels[ch])
  {
    var t := Next(s, steps[0]);
    MailStays(t, steps[1..], ch);
    if |s.channels[ch].buffer| < 64 {
      var mail := Mail(t.channels[ch]);
      assert mail[|mail| - 1] == m;
      assert Mail(Exec(s, steps).channels[ch])[|mail| - 1] == m;
    }
  }

  // ---------------------------------------------------------------- the broadcaster

  class Chan {
    var buffer: seq<Message>
    var closed: bool

    constructor ()
      ensures buffer == [] && !closed
    {
      buffer, closed := [], false;
    }
  }

  class AuditBroadcaster {
    var subscribers: set<Chan>

    constructor ()
      ensures subscribers == {}
    {
      subscribers := {};
    }

    /** No subscriber's channel is closed. */
    ghost predicate Valid()
      reads this, subscribers
    {
      forall ch :: ch in subscribers ==> !ch.closed
    }

    method Subscribe() returns (ch: Chan)
      requires Valid()
      modifies this
      ensures Valid() && fresh(ch) && ch.buffer == [] && subscribers == old(subscribers) + {ch}
    {
      ch := new Chan();
      subscribers := subscribers + {ch};
    }

    method Unsubscribe(ch: Chan)
      requires Valid() && !ch.closed
      modifies this, ch
      ensures Valid() && ch.closed && ch.buffer == old(ch.buffer) && subscribers == old(subscribers) - {ch}
    {
      subscribers := subscribers - {ch};
      ch.closed := true;
    }

    /** Each subscriber is offered the message once; none is blocked on, closed or dropped. */
    method Broadcast(m: Message)
      requires Valid()
      modifies subscribers
      ensures Valid() && forall ch :: ch in subscribers ==>
                           ch.buffer == if |old(ch.buffer)| < 64 then old(ch.buffer) + [m] else old(ch.buffer)
    {
      var remaining := subscribers;
      while remaining != {}
        invariant remaining <= subscribers && Valid()
        invariant forall ch :: ch in subscribers ==>
                    ch.buffer == if ch in remaining then old(ch.buffer) else Offer(old(ch.buffer), m)
        decreases remaining
      {
        var ch :| ch in remaining;
        remaining := remaining - {ch};
        if |ch.buffer| < CAPACITY {
          ch.buffer := ch.buffer + [m];
        }
      }
    }
  }
}
