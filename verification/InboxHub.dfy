/** The hub that shares one Redis subscriber among all open inboxes
    (apps/api/src/notifications/inbox-hint-hub.ts, class RedisInboxHintHub) as a state machine.
    One event is the code between two awaits, or one handler of a Redis event. */
module InboxHub {
  import opened Wrappers
  import opened LatestSignals

  /** A workspace's channel name. */
  type Name = string

  /** How far subscribe() has come for this listener: at the await, returned to its caller, or thrown. */
  datatype Phase = Awaiting | Returned | Thrown

  datatype Listener = Listener(name: Name, channel: nat, mailbox: Mailbox, phase: Phase)

  datatype Outcome = Unsettled | Resolved | Rejected

  /** A Channel object: `outcome` is its subscribed promise, `handled` that the catch handler ran. */
  datatype Channel = Channel(name: Name, listeners: set<nat>, outcome: Outcome, handled: bool)

  datatype Command = SUBSCRIBE(name: Name) | UNSUBSCRIBE(name: Name)

  /** Channel and listener objects are numbered in the order of their creation. */
  datatype State = State(
    channels: map<Name, nat>,
    objects: seq<Channel>,
    listeners: seq<Listener>,
    redis: bool,
    disconnected: bool,
    closed: bool,
    commands: seq<Command>)
  {
    predicate WellFormed() {
      && (forall n :: n in channels ==> channels[n] < |objects|)
      && (forall l :: 0 <= l < |listeners| ==> listeners[l].channel < |objects| && listeners[l].mailbox.Valid())
    }

    predicate Mapped(c: nat)
      requires c < |objects|
    {
      objects[c].name in channels && channels[objects[c].name] == c
    }
  }

  const INITIAL := State(map[], [], [], false, false, false, [])

  datatype Event =
    | Subscribe(name: Name)
    | Settle(channel: nat, confirmed: bool)
    | Handle(channel: nat)
    | Continue(listener: nat)
    | Ask(listener: nat)
    | CloseListener(listener: nat)
    | Message(name: Name, revision: Option<string>)
    | RedisClosed
    | Ready
    | CheckReadiness
    | CloseHub

  /** What can happen: a promise settles once, its catch handler was registered before the awaiting
      listeners, a caller has a listener only once subscribe() returned it, and only a connection
      that exists emits events. */
  predicate Enabled(s: State, e: Event) {
    && s.WellFormed()
    && match e
       case Settle(c, _) => c < |s.objects| && s.objects[c].outcome == Unsettled
       case Handle(c) => c < |s.objects| && s.objects[c].outcome == Rejected && !s.objects[c].handled
       case Continue(l) =>
         l < |s.listeners| && s.listeners[l].phase == Awaiting
         && (s.objects[s.listeners[l].channel].outcome == Resolved || s.objects[s.listeners[l].channel].handled)
       case Ask(l) => l < |s.listeners| && s.listeners[l].phase == Returned
       case CloseListener(l) => l < |s.listeners| && s.listeners[l].phase == Returned
       case Message(_, _) => s.redis
       case RedisClosed => s.redis
       case Ready => s.redis
       case _ => true
  }

  /** subscribe() up to its await; a closed hub throws. */
  function Subscribed(s: State, name: Name): State
    requires s.WellFormed()
  {
    var l := |s.listeners|;
    if s.closed then s
    else if name in s.channels then
      var c := s.channels[name];
      s.(objects := s.objects[c := s.objects[c].(listeners := s.objects[c].listeners + {l})],
         listeners := s.listeners + [Listener(name, c, EMPTY, Awaiting)])
    else
      var c := |s.objects|;
      s.(channels := s.channels[name := c],
         objects := s.objects + [Channel(name, {l}, Unsettled, false)],
         listeners := s.listeners + [Listener(name, c, EMPTY, Awaiting)],
         redis := true,
         commands := s.commands + [SUBSCRIBE(name)])
  }

  /** The name is unmapped and, while there is a connection, unsubscribed. */
  function Dropped(s: State, name: Name): State {
    s.(channels := s.channels - {name},
       commands := if s.redis then s.commands + [UNSUBSCRIBE(name)] else s.commands)
  }

  function Handled(s: State, c: nat): State
    requires c < |s.objects|
  {
    var h := s.(objects := s.objects[c := s.objects[c].(handled := true)]);
    if h.Mapped(c) then Dropped(h, s.objects[c].name) else h
  }

  function Continued(s: State, l: nat): State
    requires l < |s.listeners| && s.WellFormed()
  {
    var c := s.listeners[l].channel;
    if s.objects[c].outcome == Resolved then s.(listeners := s.listeners[l := s.listeners[l].(phase := Returned)])
    else
      s.(objects := s.objects[c := s.objects[c].(listeners := s.objects[c].listeners - {l})],
         listeners := s.listeners[l := s.listeners[l].(phase := Thrown)])
  }

  function Released(s: State, l: nat): State
    requires l < |s.listeners| && s.WellFormed()
  {
    var name := s.listeners[l].name;
    if name !in s.channels || l !in s.objects[s.channels[name]].listeners then s
    else
      var c := s.channels[name];
      var r := s.(objects := s.objects[c := s.objects[c].(listeners := s.objects[c].listeners - {l})]);
      if r.objects[c].listeners != {} || s.closed then r else Dropped(r, name)
  }

  function WithMailbox(s: State, l: nat, mailbox: Mailbox): State
    requires l < |s.listeners|
  {
    s.(listeners := s.listeners[l := s.listeners[l].(mailbox := mailbox)])
  }

  function ListenerClosed(s: State, l: nat): State
    requires l < |s.listeners| && s.WellFormed()
  {
    if s.listeners[l].mailbox.closed then s
    else Released(WithMailbox(s, l, Closed(s.listeners[l].mailbox)), l)
  }

  /** The listeners of one name's channel, and of all channels. */
  function ListenersOf(s: State, name: Name): set<nat>
    requires s.WellFormed()
  {
    if name in s.channels then s.objects[s.channels[name]].listeners else {}
  }

  function AllListeners(s: State, names: set<Name>): set<nat>
    requires s.WellFormed()
  {
    set n, l | n in names && l in ListenersOf(s, n) :: l
  }

  function Sent(listeners: seq<Listener>, targets: set<nat>, signal: Signal): (r: seq<Listener>)
    requires forall l :: 0 <= l < |listeners| ==> listeners[l].mailbox.Valid()
    ensures |r| == |listeners|
  {
    seq(|listeners|, l requires 0 <= l < |listeners| =>
      if l in targets then listeners[l].(mailbox := Pushed(listeners[l].mailbox, signal)) else listeners[l])
  }

  /** The listeners of open channels close, and leave their channel's set, whose entry is removed after. */
  function HubClosed(s: State): State
    requires s.WellFormed()
  {
    if s.closed then s
    else
      s.(channels := map[], redis := false, closed := true,
         objects := seq(|s.objects|, c requires 0 <= c < |s.objects| =>
           if s.Mapped(c) then s.objects[c].(listeners := {}) else s.objects[c]),
         listeners := seq(|s.listeners|, l requires 0 <= l < |s.listeners| =>
           if l in AllListeners(s, s.channels.Keys)
           then s.listeners[l].(mailbox := Closed(s.listeners[l].mailbox)) else s.listeners[l]))
  }

  function Next(s: State, e: Event): State
    requires Enabled(s, e)
  {
    match e
    case Subscribe(name) => Subscribed(s, name)
    case Settle(c, ok) => s.(objects := s.objects[c := s.objects[c].(outcome := if ok then Resolved else Rejected)])
    case Handle(c) => Handled(s, c)
    case Continue(l) => Continued(s, l)
    case Ask(l) => WithMailbox(s, l, Asked(s.listeners[l].mailbox))
    case CloseListener(l) => ListenerClosed(s, l)
    case Message(name, revision) =>
      if revision == None then s
      else s.(listeners := Sent(s.listeners, ListenersOf(s, name), Changed(revision.value)))
    case RedisClosed => s.(disconnected := true)
    case Ready =>
      if !s.disconnected then s
      else s.(disconnected := false, listeners := Sent(s.listeners, AllListeners(s, s.channels.Keys), Resync))
    case CheckReadiness => s.(redis := true)
    case CloseHub => HubClosed(s)
  }

  predicate IsRun(s: State, events: seq<Event>)
    decreases |events|
  {
    events == [] || (Enabled(s, events[0]) && IsRun(Next(s, events[0]), events[1..]))
  }

  function Run(s: State, events: seq<Event>): State
    requires IsRun(s, events)
    decreases |events|
  {
    if events == [] then s else Run(Next(s, events[0]), events[1..])
  }

  // ----- What every reachable state keeps -----

  /** The last command about this name is SUBSCRIBE. */
  predicate IsSubscribed(commands: seq<Command>, name: Name) {
    if commands == [] then false
    else
      var last := commands[|commands| - 1];
      if last.name == name then last.SUBSCRIBE? else IsSubscribed(commands[..|commands| - 1], name)
  }

  /** Not closed, and not doomed to throw. */
  predicate Live(s: State, l: nat)
    requires l < |s.listeners| && s.listeners[l].channel < |s.objects|
  {
    var x := s.listeners[l];
    !x.mailbox.closed && (x.phase == Returned || (x.phase == Awaiting && !s.objects[x.channel].handled))
  }

  predicate Attached(s: State, l: nat)
    requires l < |s.listeners| && s.listeners[l].channel < |s.objects|
  {
    s.Mapped(s.listeners[l].channel) && l in s.objects[s.listeners[l].channel].listeners
  }

  predicate NameOk(s: State, n: Name) {
    && (n in s.channels ==> s.channels[n] < |s.objects| && s.objects[s.channels[n]].name == n)
    && (!s.closed ==> (IsSubscribed(s.commands, n) <==> n in s.channels))
  }

  predicate ChannelOk(s: State, c: nat)
    requires c < |s.objects|
  {
    var x := s.objects[c];
    && (x.handled ==> x.outcome == Rejected)
    && (forall l :: l in x.listeners ==> l < |s.listeners| && s.listeners[l].channel == c)
    && (s.Mapped(c) ==> x.listeners != {} && !x.handled)
    && (s.Mapped(c) ==> forall l :: l in x.listeners ==> !s.listeners[l].mailbox.closed)
  }

  predicate ListenerOk(s: State, l: nat)
    requires l < |s.listeners|
  {
    var x := s.listeners[l];
    && x.channel < |s.objects|
    && x.name == s.objects[x.channel].name
    && x.mailbox.Valid()
    && (x.phase == Returned ==> s.objects[x.channel].outcome == Resolved)
    && (x.phase == Thrown ==> s.objects[x.channel].handled)
    && (Live(s, l) ==> Attached(s, l) && !s.closed)
  }

  ghost predicate Inv(s: State) {
    && (forall n :: NameOk(s, n))
    && (forall c :: 0 <= c < |s.objects| ==> ChannelOk(s, c))
    && (forall l :: 0 <= l < |s.listeners| ==> ListenerOk(s, l))
    && (s.closed ==> s.channels == map[])
    && (!s.closed && s.channels != map[] ==> s.redis)
  }
}
