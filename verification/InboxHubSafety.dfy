/** What the hub keeps in every reachable state, over every interleaving of subscriptions,
    confirmations, failures, closes, messages and reconnects. */
module InboxHubSafety {
  import opened Wrappers
  import opened LatestSignals
  import opened InboxHub

  lemma InitialInv()
    ensures Inv(INITIAL)
  {
  }

  lemma InvIsWellFormed(s: State)
    requires Inv(s)
    ensures s.WellFormed()
  {
    forall n | n in s.channels
      ensures s.channels[n] < |s.objects|
    {
      assert NameOk(s, n);
    }
    forall l | 0 <= l < |s.listeners|
      ensures s.listeners[l].channel < |s.objects| && s.listeners[l].mailbox.Valid()
    {
      assert ListenerOk(s, l);
    }
  }

  lemma MappedIsNamed(s: State, n: Name)
    requires Inv(s) && n in s.channels
    ensures s.channels[n] < |s.objects| && s.objects[s.channels[n]].name == n && s.Mapped(s.channels[n])
  {
    assert NameOk(s, n);
  }

  lemma OneMoreCommand(commands: seq<Command>, command: Command, n: Name)
    ensures IsSubscribed(commands + [command], n)
         <==> if command.name == n then command.SUBSCRIBE? else IsSubscribed(commands, n)
  {
    assert (commands + [command])[..|commands|] == commands;
  }

  lemma SubscribeNewKeeps(s: State, name: Name)
    requires Inv(s) && s.WellFormed() && !s.closed && name !in s.channels
    ensures Inv(Subscribed(s, name))
  {
    var t := Subscribed(s, name);
    forall n
      ensures NameOk(t, n)
    {
      assert NameOk(s, n);
      OneMoreCommand(s.commands, SUBSCRIBE(name), n);
    }
    forall c | 0 <= c < |t.objects|
      ensures ChannelOk(t, c)
    {
      assert c < |s.objects| ==> ChannelOk(s, c);
    }
    forall l | 0 <= l < |t.listeners|
      ensures ListenerOk(t, l)
    {
      assert l < |s.listeners| ==> ListenerOk(s, l);
    }
  }

  lemma SubscribeMoreKeeps(s: State, name: Name)
    requires Inv(s) && s.WellFormed() && !s.closed && name in s.channels
    ensures Inv(Subscribed(s, name))
  {
    var t, d := Subscribed(s, name), s.channels[name];
    MappedIsNamed(s, name);
    forall n
      ensures NameOk(t, n)
    {
      assert NameOk(s, n);
    }
    forall c | 0 <= c < |t.objects|
      ensures ChannelOk(t, c)
    {
      assert ChannelOk(s, c);
    }
    forall l | 0 <= l < |t.listeners|
      ensures ListenerOk(t, l)
    {
      assert l < |s.listeners| ==> ListenerOk(s, l);
    }
  }

  lemma SettleKeeps(s: State, d: nat, ok: bool)
    requires Inv(s) && Enabled(s, Settle(d, ok))
    ensures Inv(Next(s, Settle(d, ok)))
  {
    var t := Next(s, Settle(d, ok));
    forall n
      ensures NameOk(t, n)
    {
      assert NameOk(s, n);
    }
    forall c | 0 <= c < |t.objects|
      ensures ChannelOk(t, c)
    {
      assert ChannelOk(s, c);
    }
    forall l | 0 <= l < |t.listeners|
      ensures ListenerOk(t, l)
    {
      assert ListenerOk(s, l);
    }
  }

  lemma HandleKeeps(s: State, d: nat)
    requires Inv(s) && Enabled(s, Handle(d))
    ensures Inv(Handled(s, d))
  {
    hide IsSubscribed;
    var t := Handled(s, d);
    var name := s.objects[d].name;
    forall n
      ensures NameOk(t, n)
    {
      assert NameOk(s, n);
      OneMoreCommand(s.commands, UNSUBSCRIBE(name), n);
    }
    forall c | 0 <= c < |t.objects|
      ensures ChannelOk(t, c)
    {
      assert ChannelOk(s, c);
    }
    forall l | 0 <= l < |t.listeners|
      ensures ListenerOk(t, l)
    {
      assert ListenerOk(s, l);
    }
  }

  lemma ReturnKeeps(s: State, k: nat)
    requires Inv(s) && Enabled(s, Continue(k)) && s.objects[s.listeners[k].channel].outcome == Resolved
    ensures Inv(Continued(s, k))
  {
    hide IsSubscribed;
    var t := Continued(s, k);
    assert ListenerOk(s, k) && ChannelOk(s, s.listeners[k].channel);
    forall n
      ensures NameOk(t, n)
    {
      assert NameOk(s, n);
    }
    forall c | 0 <= c < |t.objects|
      ensures ChannelOk(t, c)
    {
      assert ChannelOk(s, c);
    }
    forall l | 0 <= l < |t.listeners|
      ensures ListenerOk(t, l)
    {
      assert ListenerOk(s, l);
    }
  }

  /** A throwing listener leaves a channel that its handler has taken out of the map. */
  lemma ThrowKeeps(s: State, k: nat)
    requires Inv(s) && Enabled(s, Continue(k)) && s.objects[s.listeners[k].channel].outcome != Resolved
    ensures Inv(Continued(s, k))
  {
    hide IsSubscribed;
    var t, d := Continued(s, k), s.listeners[k].channel;
    assert ListenerOk(s, k) && ChannelOk(s, d) && !s.Mapped(d);
    forall n
      ensures NameOk(t, n)
    {
      assert NameOk(s, n);
    }
    forall c | 0 <= c < |t.objects|
      ensures ChannelOk(t, c)
    {
      assert ChannelOk(s, c);
    }
    forall l | 0 <= l < |t.listeners|
      ensures ListenerOk(t, l)
    {
      assert ListenerOk(s, l);
    }
  }

  /** The steps that touch mailboxes only, and close none. */
  lemma MailboxesKeep(s: State, t: State)
    requires Inv(s)
    requires t.channels == s.channels && t.objects == s.objects && t.commands == s.commands && t.closed == s.closed
    requires s.redis ==> t.redis
    requires |t.listeners| == |s.listeners|
    requires forall l :: 0 <= l < |s.listeners| ==>
               && t.listeners[l] == s.listeners[l].(mailbox := t.listeners[l].mailbox)
               && t.listeners[l].mailbox.Valid()
               && t.listeners[l].mailbox.closed == s.listeners[l].mailbox.closed
    ensures Inv(t)
  {
    forall n
      ensures NameOk(t, n)
    {
      assert NameOk(s, n);
    }
    forall c | 0 <= c < |t.objects|
      ensures ChannelOk(t, c)
    {
      assert ChannelOk(s, c);
    }
    forall l | 0 <= l < |t.listeners|
      ensures ListenerOk(t, l)
    {
      assert ListenerOk(s, l);
    }
  }

  /** A returned listener that is still open leaves its channel, and the channel goes with its last one. */
  lemma CloseListenerKeeps(s: State, k: nat)
    requires Inv(s) && Enabled(s, CloseListener(k)) && !s.listeners[k].mailbox.closed
    ensures Inv(ListenerClosed(s, k))
  {
    hide IsSubscribed, ListenerOk, Live, Pushed, Asked;
    var t, d, name := ListenerClosed(s, k), s.listeners[k].channel, s.listeners[k].name;
    LiveIsAttached(s, k);
    forall n
      ensures NameOk(t, n)
    {
      assert NameOk(s, n);
      OneMoreCommand(s.commands, UNSUBSCRIBE(name), n);
    }
    forall c | 0 <= c < |t.objects|
      ensures ChannelOk(t, c)
    {
      assert ChannelOk(s, c);
    }
    forall l | 0 <= l < |t.listeners|
      ensures ListenerOk(t, l)
    {
      CloseListenerSpares(s, k, l);
    }
  }

  lemma LiveIsAttached(s: State, l: nat)
    requires Inv(s) && l < |s.listeners| && s.listeners[l].phase == Returned && !s.listeners[l].mailbox.closed
    ensures s.listeners[l].channel < |s.objects| && Attached(s, l) && !s.closed
    ensures s.objects[s.listeners[l].channel].name == s.listeners[l].name
    ensures s.listeners[l].name in s.channels && s.channels[s.listeners[l].name] == s.listeners[l].channel
  {
    assert ListenerOk(s, l) && Live(s, l);
  }

  /** Whoever shares the channel with the closing listener keeps it subscribed. */
  lemma CloseListenerSpares(s: State, k: nat, l: nat)
    requires Inv(s) && Enabled(s, CloseListener(k)) && !s.listeners[k].mailbox.closed && l < |s.listeners|
    ensures ListenerOk(ListenerClosed(s, k), l)
  {
    hide IsSubscribed, ChannelOk, NameOk, Closed;
    LiveIsAttached(s, k);
    assert ListenerOk(s, l);
    var d := s.listeners[k].channel;
    if l != k && Live(s, l) && s.listeners[l].channel == d {
      assert l in s.objects[d].listeners - {k};
    }
  }

  lemma CloseHubKeeps(s: State)
    requires Inv(s) && s.WellFormed() && !s.closed
    ensures Inv(HubClosed(s))
  {
    var t := HubClosed(s);
    forall c | 0 <= c < |t.objects|
      ensures ChannelOk(t, c)
    {
      assert ChannelOk(s, c);
    }
    forall l | 0 <= l < |t.listeners|
      ensures ListenerOk(t, l)
    {
      assert ListenerOk(s, l);
      if Live(s, l) {
        var n := s.objects[s.listeners[l].channel].name;
        assert Attached(s, l) && n in s.channels && l in ListenersOf(s, n);
        assert l in AllListeners(s, s.channels.Keys);
      }
    }
  }

  lemma SubscribeKeeps(s: State, name: Name)
    requires Inv(s) && s.WellFormed()
    ensures Inv(Subscribed(s, name))
  {
    hide Inv;
    if !s.closed {
      if name in s.channels {
        SubscribeMoreKeeps(s, name);
      } else {
        SubscribeNewKeeps(s, name);
      }
    }
  }

  lemma CloseKeeps(s: State, e: Event)
    requires Inv(s) && Enabled(s, e) && (e.CloseListener? || e.CloseHub?)
    ensures Inv(Next(s, e))
  {
    hide Inv;
    if e.CloseHub? && !s.closed {
      CloseHubKeeps(s);
    }
    if e.CloseListener? && !s.listeners[e.listener].mailbox.closed {
      CloseListenerKeeps(s, e.listener);
    }
  }

  lemma StepInv(s: State, e: Event)
    requires Inv(s) && Enabled(s, e)
    ensures Inv(Next(s, e))
  {
    hide Inv, Handled, Continued, ListenerClosed, HubClosed, Subscribed;
    match e
    case Subscribe(name) => SubscribeKeeps(s, name);
    case Settle(c, ok) => SettleKeeps(s, c, ok);
    case Handle(c) => HandleKeeps(s, c);
    case Continue(l) =>
      if s.objects[s.listeners[l].channel].outcome == Resolved {
        ReturnKeeps(s, l);
      } else {
        ThrowKeeps(s, l);
      }
    case CloseListener(l) => CloseKeeps(s, e);
    case CloseHub => CloseKeeps(s, e);
    case _ => MailboxesKeep(s, Next(s, e));
  }

  lemma {:induction false} OneMoreEvent(s: State, events: seq<Event>, e: Event)
    requires IsRun(s, events) && Enabled(Run(s, events), e)
    ensures IsRun(s, events + [e]) && Run(s, events + [e]) == Next(Run(s, events), e)
    decreases |events|
  {
    hide Enabled, Next;
    if events == [] {
      assert ([] + [e])[1..] == [];
    } else {
      OneMoreEvent(Next(s, events[0]), events[1..], e);
      assert (events + [e])[1..] == events[1..] + [e];
    }
  }

  lemma {:induction false} ReachableInv(s: State, events: seq<Event>)
    requires Inv(s) && IsRun(s, events)
    ensures Inv(Run(s, events))
    decreases |events|
  {
    hide Inv, Enabled, Next;
    if events != [] {
      StepInv(s, events[0]);
      ReachableInv(Next(s, events[0]), events[1..]);
    }
  }

  // ----- Subscriptions -----

  /** Someone has, or is about to get, an open inbox of this name. */
  ghost predicate Watched(s: State, name: Name)
    requires s.WellFormed()
  {
    exists l :: 0 <= l < |s.listeners| && Live(s, l) && s.listeners[l].name == name
  }

  lemma MappedIffWatched(s: State, name: Name)
    requires Inv(s) && s.WellFormed() && !s.closed
    ensures name in s.channels <==> Watched(s, name)
  {
    if name in s.channels {
      MappedIsNamed(s, name);
      var c := s.channels[name];
      assert ChannelOk(s, c);
      var l :| l in s.objects[c].listeners;
      assert ListenerOk(s, l);
      assert Live(s, l);
    }
    if Watched(s, name) {
      var l :| 0 <= l < |s.listeners| && Live(s, l) && s.listeners[l].name == name;
      assert ListenerOk(s, l);
    }
  }

  /** While the hub is open, the last command about a channel is SUBSCRIBE exactly if the channel is
      mapped, and it is mapped exactly if somebody watches it. */
  lemma SubscribedExactlyWhileWatched(events: seq<Event>, name: Name)
    requires IsRun(INITIAL, events) && !Run(INITIAL, events).closed
    ensures var s := Run(INITIAL, events);
            && s.WellFormed()
            && (IsSubscribed(s.commands, name) <==> name in s.channels)
            && (name in s.channels <==> Watched(s, name))
  {
    hide Run, IsRun, Watched;
    InitialInv();
    ReachableInv(INITIAL, events);
    var s := Run(INITIAL, events);
    InvIsWellFormed(s);
    assert NameOk(s, name);
    MappedIffWatched(s, name);
  }

  /** An inbox handed out and not closed is in its channel, so no hint passes it by. */
  lemma OpenInboxIsSubscribed(events: seq<Event>, l: nat)
    requires IsRun(INITIAL, events)
    ensures var s := Run(INITIAL, events);
            s.WellFormed()
            && (l < |s.listeners| && s.listeners[l].phase == Returned && !s.listeners[l].mailbox.closed ==>
                  && !s.closed
                  && l in ListenersOf(s, s.listeners[l].name)
                  && IsSubscribed(s.commands, s.listeners[l].name))
  {
    hide Run, IsRun, IsSubscribed;
    InitialInv();
    ReachableInv(INITIAL, events);
    var s := Run(INITIAL, events);
    InvIsWellFormed(s);
    if l < |s.listeners| && s.listeners[l].phase == Returned && !s.listeners[l].mailbox.closed {
      LiveIsAttached(s, l);
      assert NameOk(s, s.listeners[l].name);
    }
  }

  // ----- Signals -----

  /** The mailbox hands the signal to a waiting reader, or holds it (a held resync absorbs it). */
  predicate Received(before: Mailbox, after: Mailbox, signal: Signal)
    requires before.Valid()
  {
    if before.waiter.Some? then
      |after.promises| == |before.promises| && after.promises[before.waiter.value] == Some(Value(signal))
    else after.pending == Some(signal) || (before.pending == Some(Resync) && after.pending == Some(Resync))
  }

  lemma LiveIsTargeted(s: State, l: nat)
    requires Inv(s) && s.WellFormed() && l < |s.listeners| && Live(s, l)
    ensures l in ListenersOf(s, s.listeners[l].name)
    ensures l in AllListeners(s, s.channels.Keys)
  {
    assert ListenerOk(s, l);
    var n := s.listeners[l].name;
    assert n in s.channels.Keys && l in ListenersOf(s, n);
  }

  lemma ListenersHaveTheName(s: State, l: nat, name: Name)
    requires Inv(s) && s.WellFormed() && l < |s.listeners| && l in ListenersOf(s, name)
    ensures s.listeners[l].name == name
  {
    MappedIsNamed(s, name);
    assert ChannelOk(s, s.channels[name]) && ListenerOk(s, l);
  }

  /** A hint reaches every watcher of its workspace, and nobody else. */
  lemma MessageReaches(s: State, name: Name, revision: string, l: nat)
    requires Inv(s) && Enabled(s, Message(name, Some(revision))) && l < |s.listeners|
    ensures var t := Next(s, Message(name, Some(revision)));
            && |t.listeners| == |s.listeners|
            && (Live(s, l) && s.listeners[l].name == name ==>
                  Received(s.listeners[l].mailbox, t.listeners[l].mailbox, Changed(revision)))
            && (s.listeners[l].name != name ==> t.listeners[l] == s.listeners[l])
  {
    if Live(s, l) {
      LiveIsTargeted(s, l);
    }
    if l in ListenersOf(s, name) {
      ListenersHaveTheName(s, l, name);
    }
  }

  lemma {:induction false} StaysDisconnected(s: State, events: seq<Event>)
    requires IsRun(s, events) && s.disconnected && Ready !in events
    ensures Run(s, events).disconnected
    decreases |events|
  {
    if events != [] {
      StaysDisconnected(Next(s, events[0]), events[1..]);
    }
  }

  /** Whatever happens between a lost connection and the next ready, everyone watching at that
      ready receives or holds a resync. */
  lemma ReconnectResyncs(s: State, between: seq<Event>, l: nat)
    requires Inv(s) && Enabled(s, RedisClosed) && Ready !in between
    requires IsRun(Next(s, RedisClosed), between)
    requires Enabled(Run(Next(s, RedisClosed), between), Ready)
    ensures var before := Run(Next(s, RedisClosed), between);
            var after := Next(before, Ready);
            && !after.disconnected && |after.listeners| == |before.listeners|
            && (l < |before.listeners| && Live(before, l) ==>
                  Received(before.listeners[l].mailbox, after.listeners[l].mailbox, Resync))
  {
    hide IsRun, Run, Inv;
    StepInv(s, RedisClosed);
    ReachableInv(Next(s, RedisClosed), between);
    StaysDisconnected(Next(s, RedisClosed), between);
    var before := Run(Next(s, RedisClosed), between);
    if l < |before.listeners| && Live(before, l) {
      LiveIsTargeted(before, l);
    }
  }

  /** A held resync is kept, through every event, until it is read or the inbox closes. */
  lemma ResyncIsKept(s: State, e: Event, l: nat)
    requires Enabled(s, e) && l < |s.listeners| && s.listeners[l].mailbox.pending == Some(Resync)
    requires s.listeners[l].mailbox.waiter == None && !s.listeners[l].mailbox.closed
    ensures var t := Next(s, e);
            l < |t.listeners|
            && var m := t.listeners[l].mailbox;
               || (m.pending == Some(Resync) && m.waiter == None && !m.closed)
               || m.closed
               || (e == Ask(l) && m.promises == s.listeners[l].mailbox.promises + [Some(Value(Resync))])
  {
  }

  lemma {:induction false} ResyncOutlivesRuns(s: State, events: seq<Event>, l: nat)
    requires IsRun(s, events) && l < |s.listeners| && Ask(l) !in events
    requires s.WellFormed() && s.listeners[l].mailbox.pending == Some(Resync)
    requires s.listeners[l].mailbox.waiter == None && !s.listeners[l].mailbox.closed
    ensures var t := Run(s, events);
            l < |t.listeners|
            && (t.listeners[l].mailbox.pending == Some(Resync) || t.listeners[l].mailbox.closed)
    decreases |events|
  {
    hide Next, Enabled;
    if events != [] {
      var next := Next(s, events[0]);
      ResyncIsKept(s, events[0], l);
      if next.listeners[l].mailbox.closed {
        ClosedStaysClosed(next, events[1..], l);
      } else {
        if events[1..] != [] {
          EnabledIsWellFormed(next, events[1]);
          ResyncOutlivesRuns(next, events[1..], l);
        }
      }
    }
  }

  lemma EnabledIsWellFormed(s: State, e: Event)
    requires Enabled(s, e)
    ensures s.WellFormed()
  {
  }

  lemma StepKeepsClosed(s: State, e: Event, l: nat)
    requires Enabled(s, e) && l < |s.listeners| && s.listeners[l].mailbox.closed
    ensures var t := Next(s, e); l < |t.listeners| && t.listeners[l].mailbox.closed
  {
  }

  lemma {:induction false} ClosedStaysClosed(s: State, events: seq<Event>, l: nat)
    requires IsRun(s, events) && l < |s.listeners| && s.listeners[l].mailbox.closed
    ensures var t := Run(s, events); l < |t.listeners| && t.listeners[l].mailbox.closed
    decreases |events|
  {
    hide Next, Enabled;
    if events != [] {
      StepKeepsClosed(s, events[0], l);
      ClosedStaysClosed(Next(s, events[0]), events[1..], l);
    }
  }

  // ----- What a caller of one step may rely on -----

  /** An open hub is subscribed to exactly what is watched, and reaches everyone who watches. */
  ghost predicate Served(s: State) {
    && s.WellFormed()
    && (!s.closed ==> forall n :: IsSubscribed(s.commands, n) <==> Watched(s, n))
    && (forall l :: 0 <= l < |s.listeners| && Live(s, l) ==> !s.closed && l in ListenersOf(s, s.listeners[l].name))
  }

  lemma InvIsServed(s: State)
    requires Inv(s)
    ensures Served(s)
  {
    InvIsWellFormed(s);
    if !s.closed {
      forall n
        ensures IsSubscribed(s.commands, n) <==> Watched(s, n)
      {
        assert NameOk(s, n);
        MappedIffWatched(s, n);
      }
    }
    forall l | 0 <= l < |s.listeners| && Live(s, l)
      ensures !s.closed && l in ListenersOf(s, s.listeners[l].name)
    {
      LiveIsTargeted(s, l);
      assert ListenerOk(s, l);
    }
  }

  lemma StepServed(s: State, e: Event)
    requires Inv(s) && Enabled(s, e)
    ensures Inv(Next(s, e)) && Served(Next(s, e))
  {
    hide Inv, Served;
    StepInv(s, e);
    InvIsServed(Next(s, e));
  }

  lemma AfterSubscribe(s: State, name: Name)
    requires Inv(s) && Enabled(s, Subscribe(name)) && !s.closed
    ensures var n := Next(s, Subscribe(name)); n.WellFormed() && Watched(n, name) && !n.closed
  {
    var n := Next(s, Subscribe(name));
    StepInv(s, Subscribe(name));
    InvIsWellFormed(n);
    if name in s.channels {
      MappedIsNamed(s, name);
      assert ChannelOk(s, s.channels[name]);
    }
    assert Live(n, |s.listeners|);
  }

  /** Whoever waited for a failed subscription is no longer promised anything. */
  lemma AfterHandle(s: State, c: nat)
    requires Inv(s) && Enabled(s, Handle(c))
    ensures var n := Next(s, Handle(c));
            n.WellFormed() && c < |n.objects| && !n.Mapped(c)
            && forall l :: 0 <= l < |n.listeners| && n.listeners[l].channel == c ==> !Live(n, l)
  {
    var n := Next(s, Handle(c));
    StepInv(s, Handle(c));
    InvIsWellFormed(n);
    assert ChannelOk(n, c);
    forall l | 0 <= l < |n.listeners| && n.listeners[l].channel == c
      ensures !Live(n, l)
    {
      assert ListenerOk(n, l);
    }
  }

  lemma AfterContinue(s: State, l: nat)
    requires Inv(s) && Enabled(s, Continue(l))
    ensures var n := Next(s, Continue(l));
            && n.WellFormed() && l < |n.listeners|
            && (n.listeners[l].phase == Thrown ==> forall name :: l !in ListenersOf(n, name))
            && (n.listeners[l].phase == Thrown ==> forall c :: 0 <= c < |n.objects| ==> l !in n.objects[c].listeners)
            && (n.listeners[l].phase != Thrown ==> n.listeners[l].phase == Returned)
            && (n.listeners[l].phase == Returned && !n.listeners[l].mailbox.closed ==> l in ListenersOf(n, n.listeners[l].name))
  {
    var n := Next(s, Continue(l));
    StepInv(s, Continue(l));
    InvIsWellFormed(n);
    if n.listeners[l].phase == Thrown {
      forall c | 0 <= c < |n.objects|
        ensures l !in n.objects[c].listeners
      {
        assert ChannelOk(n, c);
      }
      forall name
        ensures l !in ListenersOf(n, name)
      {
        if name in n.channels {
          MappedIsNamed(n, name);
          assert ChannelOk(n, n.channels[name]) && ListenerOk(n, l);
        }
      }
    } else if !n.listeners[l].mailbox.closed {
      LiveIsTargeted(n, l);
    }
  }

  /** After its close the channel stays subscribed exactly for the others that watch it. */
  lemma AfterCloseListener(s: State, k: nat)
    requires Inv(s) && Enabled(s, CloseListener(k)) && !s.closed
    ensures var n, name := Next(s, CloseListener(k)), s.listeners[k].name;
            && |n.listeners| == |s.listeners| && n.listeners[k].mailbox.closed && !n.closed
            && (IsSubscribed(n.commands, name) <==>
                  exists l :: 0 <= l < |s.listeners| && l != k && Live(s, l) && s.listeners[l].name == name)
  {
    var n, name := Next(s, CloseListener(k)), s.listeners[k].name;
    CloseListenerMailboxes(s, k);
    StepServed(s, CloseListener(k));
    hide Inv;
    if Watched(n, name) {
      var l :| 0 <= l < |n.listeners| && Live(n, l) && n.listeners[l].name == name;
      assert l != k && Live(s, l) && s.listeners[l].name == name;
    }
    if l :| 0 <= l < |s.listeners| && l != k && Live(s, l) && s.listeners[l].name == name {
      assert Live(n, l) && n.listeners[l].name == name;
    }
  }

  lemma CloseListenerMailboxes(s: State, k: nat)
    requires Enabled(s, CloseListener(k))
    ensures var n := Next(s, CloseListener(k));
            && |n.listeners| == |s.listeners| && |n.objects| == |s.objects| && n.closed == s.closed
            && n.listeners[k].mailbox.closed && n.listeners[k].name == s.listeners[k].name
            && (forall l :: 0 <= l < |s.listeners| && l != k ==> n.listeners[l] == s.listeners[l])
            && (forall c :: 0 <= c < |s.objects| ==> n.objects[c].handled == s.objects[c].handled)
  {
  }

  /** The closing hub lets go of its connection and of every channel and listener, and sends nothing. */
  lemma AfterCloseHub(s: State)
    requires Inv(s) && Enabled(s, CloseHub)
    ensures var n := Next(s, CloseHub);
            && n.WellFormed() && n.closed && (forall l :: 0 <= l < |n.listeners| ==> !Live(n, l))
            && n.channels == map[] && n.commands == s.commands && |n.objects| == |s.objects|
            && (!s.closed ==>
                  !n.redis
                  && forall c :: 0 <= c < |s.objects| ==>
                       n.objects[c] == if s.Mapped(c) then s.objects[c].(listeners := {}) else s.objects[c])
  {
    var n := Next(s, CloseHub);
    StepServed(s, CloseHub);
  }

  /** A listener whose subscription Redis confirms is handed out, and one it rejects throws. */
  lemma SubscriptionSettles(s: State, l: nat, confirmed: bool)
    requires Inv(s) && s.WellFormed() && l < |s.listeners| && s.listeners[l].phase == Awaiting
    requires s.objects[s.listeners[l].channel].outcome == Unsettled
    ensures var c := s.listeners[l].channel;
            && Enabled(s, Settle(c, confirmed))
            && var t := Next(s, Settle(c, confirmed));
               if confirmed then Enabled(t, Continue(l)) && Next(t, Continue(l)).listeners[l].phase == Returned
               else
                 && Enabled(t, Handle(c)) && !Enabled(t, Continue(l))
                 && Enabled(Next(t, Handle(c)), Continue(l))
                 && Next(Next(t, Handle(c)), Continue(l)).listeners[l].phase == Thrown
  {
    var c := s.listeners[l].channel;
    assert ChannelOk(s, c);
    StepInv(s, Settle(c, confirmed));
    var t := Next(s, Settle(c, confirmed));
    InvIsWellFormed(t);
    if !confirmed {
      StepInv(t, Handle(c));
      InvIsWellFormed(Next(t, Handle(c)));
    }
  }

  lemma AfterReady(s: State)
    requires Inv(s) && Enabled(s, Ready) && s.disconnected
    ensures var n := Next(s, Ready);
            |n.listeners| == |s.listeners| && !n.disconnected
            && forall l :: 0 <= l < |s.listeners| && Live(s, l) ==>
                 Received(s.listeners[l].mailbox, n.listeners[l].mailbox, Resync)
  {
    hide Inv;
    forall l | 0 <= l < |s.listeners| && Live(s, l)
      ensures Received(s.listeners[l].mailbox, Next(s, Ready).listeners[l].mailbox, Resync)
    {
      LiveIsTargeted(s, l);
    }
  }

  lemma AfterMessage(s: State, name: Name, revision: string)
    requires Inv(s) && Enabled(s, Message(name, Some(revision)))
    ensures var n := Next(s, Message(name, Some(revision)));
            && |n.listeners| == |s.listeners|
            && (forall l :: 0 <= l < |s.listeners| && Live(s, l) && s.listeners[l].name == name ==>
                  Received(s.listeners[l].mailbox, n.listeners[l].mailbox, Changed(revision)))
            && (forall l :: 0 <= l < |s.listeners| && s.listeners[l].name != name ==> n.listeners[l] == s.listeners[l])
  {
    hide Inv, Received, Live;
    MessageKeepsLength(s, name, revision);
    forall l | 0 <= l < |s.listeners|
      ensures Live(s, l) && s.listeners[l].name == name ==>
                Received(s.listeners[l].mailbox, Next(s, Message(name, Some(revision))).listeners[l].mailbox, Changed(revision))
      ensures s.listeners[l].name != name ==> Next(s, Message(name, Some(revision))).listeners[l] == s.listeners[l]
    {
      MessageReaches(s, name, revision, l);
    }
  }

  /** The events that say something to an open inbox. Any other leaves every inbox as it is. */
  predicate Speaks(s: State, e: Event, l: nat)
    requires Enabled(s, e) && l < |s.listeners|
  {
    match e
    case Ask(k) => k == l
    case CloseListener(k) => k == l
    case Message(name, revision) => revision.Some? && s.listeners[l].name == name
    case Ready => s.disconnected
    case CloseHub => !s.closed
    case _ => false
  }

  /** No signal comes from nowhere, and no inbox closes by itself. */
  lemma SilentUnlessSpokenTo(s: State, e: Event, l: nat)
    requires Inv(s) && Enabled(s, e) && l < |s.listeners|
    ensures l < |Next(s, e).listeners| && Next(s, e).listeners[l].name == s.listeners[l].name
    ensures !Speaks(s, e, l) ==> Next(s, e).listeners[l].mailbox == s.listeners[l].mailbox
  {
    hide Inv;
    match e
    case Message(name, revision) =>
      if revision.Some? {
        MessageReaches(s, name, revision.value, l);
      }
    case CloseListener(k) =>
      CloseListenerMailboxes(s, k);
    case _ =>
  }

  /** One command for a name that becomes mapped or stops being mapped, and otherwise none. */
  lemma OneCommandPerChange(s: State, e: Event)
    requires Inv(s) && Enabled(s, e)
    ensures var n := Next(s, e);
            if e == CloseHub || n.channels.Keys == s.channels.Keys then n.commands == s.commands
            else exists name ::
                   || (name !in s.channels && n.channels.Keys == s.channels.Keys + {name}
                       && n.commands == s.commands + [SUBSCRIBE(name)])
                   || (name in s.channels && n.channels.Keys == s.channels.Keys - {name}
                       && n.commands == s.commands + [UNSUBSCRIBE(name)])
  {
    match e
    case Subscribe(name) =>
    case Handle(c) =>
      DropIsOneCommand(s, s.objects[c].name);
    case CloseListener(l) =>
      DropIsOneCommand(s, s.listeners[l].name);
    case _ =>
  }

  lemma DropIsOneCommand(s: State, name: Name)
    requires Inv(s)
    ensures name in s.channels ==>
              Dropped(s, name).channels.Keys == s.channels.Keys - {name}
              && Dropped(s, name).commands == s.commands + [UNSUBSCRIBE(name)]
  {
  }

  lemma MessageKeepsLength(s: State, name: Name, revision: string)
    requires Enabled(s, Message(name, Some(revision)))
    ensures |Next(s, Message(name, Some(revision))).listeners| == |s.listeners|
  {
  }
}
