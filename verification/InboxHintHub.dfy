/** The hub object itself: its methods and its Redis handlers assign the fields in place. Each does
    the step of the state machine and keeps the hub serving everyone who watches. */
module InboxHintHub {
  import opened Wrappers
  import opened LatestSignals
  import opened InboxHub
  import opened InboxHubSafety

  class RedisInboxHintHub {
    var channels: map<Name, nat>
    var redis: bool
    var disconnected: bool
    var closed: bool
    // Channel and LatestSignal objects, and the commands sent on the connection
    var objects: seq<Channel>
    var listeners: seq<Listener>
    var commands: seq<Command>

    function Contents(): State
      reads this
    {
      State(channels, objects, listeners, redis, disconnected, closed, commands)
    }

    ghost predicate Valid()
      reads this
    {
      Inv(Contents())
    }

    constructor ()
      ensures Valid() && Served(Contents()) && Contents() == INITIAL
    {
      channels, objects, listeners, commands := map[], [], [], [];
      redis, disconnected, closed := false, false, false;
      new;
      InitialInv();
      InvIsServed(Contents());
    }

    /** The connection is made on first use. */
    method Connection()
      modifies this`redis
      ensures redis
    {
      redis := true;
    }

    /** checkReadiness() up to its ping. */
    method CheckReadiness()
      requires Valid() && Enabled(Contents(), Event.CheckReadiness)
      modifies this
      ensures Valid() && Served(Contents()) && Contents() == Next(old(Contents()), Event.CheckReadiness)
    {
      hide Inv, Served;
      StepServed(Contents(), Event.CheckReadiness);
      Connection();
    }

    /** subscribe() up to its await; no listener when the closed hub throws. */
    method Subscribe(name: Name) returns (listener: Option<nat>)
      requires Valid() && Enabled(Contents(), Event.Subscribe(name))
      modifies this
      ensures Valid() && Served(Contents()) && Contents() == Next(old(Contents()), Event.Subscribe(name))
      ensures listener == if old(closed) then None else Some(old(|listeners|))
      ensures commands == if closed || name in old(channels) then old(commands) else old(commands) + [SUBSCRIBE(name)]
      ensures listener.Some? ==> Watched(Contents(), name) && IsSubscribed(commands, name)
    {
      hide Inv, Served;
      StepServed(Contents(), Event.Subscribe(name));
      if !closed {
        AfterSubscribe(Contents(), name);
        ServedIsSubscribed(Next(Contents(), Event.Subscribe(name)), name);
      }
      if closed {
        return None;
      }
      var l := |listeners|;
      var c;
      if name !in channels {
        c := |objects|;
        Connection();
        commands := commands + [SUBSCRIBE(name)];
        objects := objects + [Channel(name, {}, Unsettled, false)];
        channels := channels[name := c];
      } else {
        c := channels[name];
      }
      listeners := listeners + [Listener(name, c, EMPTY, Awaiting)];
      objects := objects[c := objects[c].(listeners := objects[c].listeners + {l})];
      assert {} + {l} == {l};
      assert objects == Subscribed(old(Contents()), name).objects;
      return Some(l);
    }

    /** The catch handler of a channel's promise. */
    method HandleRejection(c: nat)
      requires Valid() && Enabled(Contents(), Handle(c))
      modifies this
      ensures Valid() && Served(Contents()) && Contents() == Next(old(Contents()), Handle(c))
      ensures c < |objects| && !Contents().Mapped(c)
      ensures forall l :: 0 <= l < |listeners| && listeners[l].channel == c ==> !Live(Contents(), l)
    {
      hide Inv, Served;
      StepServed(Contents(), Handle(c));
      AfterHandle(Contents(), c);
      var name := objects[c].name;
      objects := objects[c := objects[c].(handled := true)];
      if !(name in channels && channels[name] == c) {
        return;
      }
      channels := channels - {name};
      if redis {
        commands := commands + [UNSUBSCRIBE(name)];
      }
    }

    /** subscribe() after its await. */
    method ContinueSubscribe(l: nat) returns (thrown: bool)
      requires Valid() && Enabled(Contents(), Continue(l))
      modifies this
      ensures Valid() && Served(Contents()) && Contents() == Next(old(Contents()), Continue(l))
      ensures thrown <==> listeners[l].phase == Thrown
      ensures thrown ==> forall name :: l !in ListenersOf(Contents(), name)
      ensures thrown ==> forall c :: 0 <= c < |objects| ==> l !in objects[c].listeners
      ensures !thrown ==>
                listeners[l].phase == Returned
                && (!listeners[l].mailbox.closed ==> l in ListenersOf(Contents(), listeners[l].name))
    {
      hide Inv, Served;
      StepServed(Contents(), Continue(l));
      AfterContinue(Contents(), l);
      var c := listeners[l].channel;
      if objects[c].outcome == Resolved {
        listeners := listeners[l := listeners[l].(phase := Returned)];
        return false;
      }
      objects := objects[c := objects[c].(listeners := objects[c].listeners - {l})];
      listeners := listeners[l := listeners[l].(phase := Thrown)];
      return true;
    }

    method Release(l: nat)
      requires l < |listeners| && Contents().WellFormed()
      modifies this
      ensures Contents() == Released(old(Contents()), l)
    {
      var name := listeners[l].name;
      if name !in channels || l !in objects[channels[name]].listeners {
        return;
      }
      var c := channels[name];
      objects := objects[c := objects[c].(listeners := objects[c].listeners - {l})];
      if objects[c].listeners != {} || closed {
        return;
      }
      channels := channels - {name};
      if redis {
        commands := commands + [UNSUBSCRIBE(name)];
      }
    }

    /** A listener closes, and its callback releases it. */
    method CloseListener(l: nat)
      requires Valid() && Enabled(Contents(), Event.CloseListener(l))
      modifies this
      ensures Valid() && Served(Contents()) && Contents() == Next(old(Contents()), Event.CloseListener(l))
      ensures !closed ==>
                && l < |listeners| && listeners[l].mailbox.closed
                && (IsSubscribed(commands, listeners[l].name) <==>
                      exists k :: 0 <= k < |old(listeners)| && k != l && Live(old(Contents()), k)
                                  && old(listeners)[k].name == listeners[l].name)
    {
      hide Inv, Served;
      StepServed(Contents(), Event.CloseListener(l));
      CloseListenerMailboxes(Contents(), l);
      if !closed {
        AfterCloseListener(Contents(), l);
      }
      CloseAndRelease(l);
    }

    /** A promise of the runtime settles. */
    method Settled(c: nat, confirmed: bool)
      requires Valid() && Enabled(Contents(), Settle(c, confirmed))
      modifies this
      ensures Valid() && Served(Contents()) && Contents() == Next(old(Contents()), Settle(c, confirmed))
    {
      hide Inv, Served;
      StepServed(Contents(), Settle(c, confirmed));
      objects := objects[c := objects[c].(outcome := if confirmed then Resolved else Rejected)];
    }

    /** The reader of an inbox asks for its next signal. */
    method AskListener(l: nat)
      requires Valid() && Enabled(Contents(), Ask(l))
      modifies this
      ensures Valid() && Served(Contents()) && Contents() == Next(old(Contents()), Ask(l))
    {
      hide Inv, Served;
      StepServed(Contents(), Ask(l));
      listeners := listeners[l := listeners[l].(mailbox := Asked(listeners[l].mailbox))];
    }

    method CloseAndRelease(l: nat)
      requires l < |listeners| && Contents().WellFormed()
      modifies this
      ensures Contents() == ListenerClosed(old(Contents()), l)
    {
      if listeners[l].mailbox.closed {
        return;
      }
      listeners := listeners[l := listeners[l].(mailbox := Closed(listeners[l].mailbox))];
      Release(l);
    }

    /** Each of these listeners gets the signal. */
    method PushTo(targets: set<nat>, signal: Signal)
      requires Contents().WellFormed() && forall l :: l in targets ==> l < |listeners|
      modifies this`listeners
      ensures listeners == Sent(old(listeners), targets, signal)
    {
      var left := targets;
      while left != {}
        invariant left <= targets && |listeners| == old(|listeners|)
        invariant forall l :: 0 <= l < |listeners| && (l !in targets || l in left) ==> listeners[l] == old(listeners)[l]
        invariant forall l :: 0 <= l < |listeners| && l in targets && l !in left ==>
                    listeners[l] == old(listeners)[l].(mailbox := Pushed(old(listeners)[l].mailbox, signal))
      {
        var l :| l in left;
        listeners := listeners[l := listeners[l].(mailbox := Pushed(listeners[l].mailbox, signal))];
        left := left - {l};
      }
    }

    method OnMessage(name: Name, revision: Option<string>)
      requires Valid() && Enabled(Contents(), Message(name, revision))
      modifies this
      ensures Valid() && Served(Contents()) && Contents() == Next(old(Contents()), Message(name, revision))
      ensures revision == None ==> listeners == old(listeners)
      ensures commands == old(commands) && channels == old(channels)
      ensures revision.Some? ==>
                && |listeners| == |old(listeners)|
                && (forall l :: 0 <= l < |listeners| && Live(old(Contents()), l) && listeners[l].name == name ==>
                      Received(old(listeners)[l].mailbox, listeners[l].mailbox, Changed(revision.value)))
                && (forall l :: 0 <= l < |listeners| && listeners[l].name != name ==> listeners[l] == old(listeners)[l])
    {
      hide Inv, Served;
      StepServed(Contents(), Message(name, revision));
      if revision.Some? {
        AfterMessage(Contents(), name, revision.value);
      }
      if revision == None {
        return;
      }
      TargetsExist(Contents(), name);
      var targets: set<nat> := if name in channels then objects[channels[name]].listeners else {};
      assert targets == ListenersOf(Contents(), name);
      PushTo(targets, Changed(revision.value));
    }

    method OnClose()
      requires Valid() && Enabled(Contents(), RedisClosed)
      modifies this
      ensures Valid() && Served(Contents()) && Contents() == Next(old(Contents()), RedisClosed)
      ensures disconnected && listeners == old(listeners)
    {
      hide Inv, Served;
      StepServed(Contents(), RedisClosed);
      disconnected := true;
    }

    method OnReady()
      requires Valid() && Enabled(Contents(), Event.Ready)
      modifies this
      ensures Valid() && Served(Contents()) && Contents() == Next(old(Contents()), Event.Ready)
      ensures !disconnected && |listeners| == |old(listeners)|
      ensures !old(disconnected) ==> listeners == old(listeners)
      ensures commands == old(commands) && channels == old(channels)
      ensures old(disconnected) ==> forall l :: 0 <= l < |listeners| && Live(old(Contents()), l) ==>
                Received(old(listeners)[l].mailbox, listeners[l].mailbox, Resync)
    {
      hide Inv, Served;
      StepServed(Contents(), Event.Ready);
      if disconnected {
        AfterReady(Contents());
      }
      if !disconnected {
        return;
      }
      disconnected := false;
      ghost var s := old(Contents());
      var left := channels.Keys;
      while left != {}
        invariant left <= channels.Keys
        invariant Contents() == s.(disconnected := false, listeners := listeners)
        invariant listeners == Sent(s.listeners, AllListeners(s, channels.Keys - left), Resync)
      {
        var n :| n in left;
        TargetsExist(s, n);
        SentToOneMore(s, channels.Keys - left, n);
        PushTo(objects[channels[n]].listeners, Resync);
        left := left - {n};
        assert channels.Keys - left == (channels.Keys - (left + {n})) + {n};
      }
      assert channels.Keys - left == channels.Keys;
      assert Contents() == Next(s, Event.Ready);
    }

    /** close(): every listener closes and leaves its channel, then all channels go. */
    method CloseHub()
      requires Valid() && Enabled(Contents(), Event.CloseHub)
      modifies this
      ensures Valid() && Served(Contents()) && Contents() == Next(old(Contents()), Event.CloseHub)
      ensures closed && forall l :: 0 <= l < |listeners| ==> !Live(Contents(), l)
      ensures channels == map[] && commands == old(commands) && (!old(closed) ==> !redis)
    {
      hide Inv, Served;
      StepServed(Contents(), Event.CloseHub);
      AfterCloseHub(Contents());
      if closed {
        return;
      }
      hide WithoutListeners, AllListeners, HubClosed, Inv;
      ghost var s := Contents();
      closed := true;
      NoneGone(s);
      CloseChannels(s);
      AllGone(s);
      channels := map[];
      redis := false;
    }

    /** One channel after the other. */
    method CloseChannels(ghost s: State)
      requires Inv(s) && s.WellFormed() && Contents() == WithoutListeners(s, AllListeners(s, {}))
      modifies this
      ensures Contents() == WithoutListeners(s, AllListeners(s, s.channels.Keys))
    {
      hide WithoutListeners, AllListeners, Inv, ListenersOf, Attached;
      SameChannels(s, AllListeners(s, {}));
      var left := channels.Keys;
      ghost var done: set<Name> := {};
      while left != {}
        invariant left + done == s.channels.Keys && left !! done
        invariant Contents() == WithoutListeners(s, AllListeners(s, done))
      {
        var n :| n in left;
        OneMoreName(s, done, n);
        CloseChannel(s, AllListeners(s, done), n);
        left, done := left - {n}, done + {n};
      }
      assert done == s.channels.Keys;
    }

    /** Closes the listeners of one channel while each close takes it out of the set. */
    method CloseChannel(ghost s: State, ghost gone: set<nat>, n: Name)
      requires Inv(s) && s.WellFormed() && n in s.channels
      requires gone !! ListenersOf(s, n) && forall l :: l in gone ==> l < |s.listeners| && Attached(s, l)
      requires Contents() == WithoutListeners(s, gone)
      modifies this
      ensures Contents() == WithoutListeners(s, gone + ListenersOf(s, n))
    {
      TargetsExist(s, n);
      var left := objects[channels[n]].listeners;
      assert left == ListenersOf(s, n) && gone == gone + (ListenersOf(s, n) - left);
      while left != {}
        invariant left <= ListenersOf(s, n)
        invariant Contents() == WithoutListeners(s, gone + (ListenersOf(s, n) - left))
      {
        var l :| l in left;
        OneMoreGone(s, gone + (ListenersOf(s, n) - left), n, l);
        CloseAndRelease(l);
        assert gone + (ListenersOf(s, n) - left) + {l} == gone + (ListenersOf(s, n) - (left - {l}));
        left := left - {l};
      }
      assert gone + (ListenersOf(s, n) - left) == gone + ListenersOf(s, n);
    }
  }

  /** The closing hub, once these listeners are closed and out of their sets. */
  ghost function WithoutListeners(s: State, gone: set<nat>): (t: State)
    requires s.WellFormed()
    ensures t.WellFormed()
  {
    s.(closed := true,
       objects := seq(|s.objects|, c requires 0 <= c < |s.objects| =>
         s.objects[c].(listeners := s.objects[c].listeners - gone)),
       listeners := seq(|s.listeners|, l requires 0 <= l < |s.listeners| =>
         if l in gone then s.listeners[l].(mailbox := Closed(s.listeners[l].mailbox)) else s.listeners[l]))
  }

  lemma SameChannels(s: State, gone: set<nat>)
    requires s.WellFormed()
    ensures WithoutListeners(s, gone).channels == s.channels
  {
  }

  lemma NoneGone(s: State)
    requires s.WellFormed()
    ensures WithoutListeners(s, AllListeners(s, {})) == s.(closed := true)
  {
    var none := AllListeners(s, {});
    assert none == {};
    var t := WithoutListeners(s, none);
    forall c | 0 <= c < |s.objects|
      ensures t.objects[c] == s.objects[c]
    {
      assert s.objects[c].listeners - none == s.objects[c].listeners;
    }
    assert t.objects == s.objects && t.listeners == s.listeners;
  }

  lemma TargetsAreAttached(s: State, name: Name, l: nat)
    requires Inv(s) && s.WellFormed() && l in ListenersOf(s, name)
    ensures l < |s.listeners| && s.listeners[l].name == name && Attached(s, l) && !s.listeners[l].mailbox.closed
    ensures s.channels[name] == s.listeners[l].channel
  {
    MappedIsNamed(s, name);
    assert ChannelOk(s, s.channels[name]);
    assert ListenerOk(s, l);
  }

  lemma OneMoreName(s: State, names: set<Name>, n: Name)
    requires Inv(s) && s.WellFormed() && n in s.channels && n !in names && names <= s.channels.Keys
    ensures AllListeners(s, names + {n}) == AllListeners(s, names) + ListenersOf(s, n)
    ensures AllListeners(s, names) !! ListenersOf(s, n)
    ensures forall l :: l in AllListeners(s, names) ==> l < |s.listeners| && Attached(s, l)
  {
    forall l | l in AllListeners(s, names)
      ensures l < |s.listeners| && Attached(s, l) && l !in ListenersOf(s, n)
    {
      var m :| m in names && l in ListenersOf(s, m);
      TargetsAreAttached(s, m, l);
      if l in ListenersOf(s, n) {
        TargetsAreAttached(s, n, l);
      }
    }
  }

  lemma OneMoreGone(s: State, gone: set<nat>, n: Name, l: nat)
    requires Inv(s) && s.WellFormed() && l in ListenersOf(s, n) && l !in gone
    requires forall k :: k in gone ==> k < |s.listeners|
    ensures l < |s.listeners|
    ensures ListenerClosed(WithoutListeners(s, gone), l) == WithoutListeners(s, gone + {l})
  {
    TargetsAreAttached(s, n, l);
    var t, u := ListenerClosed(WithoutListeners(s, gone), l), WithoutListeners(s, gone + {l});
    var d := s.channels[n];
    forall c | 0 <= c < |s.objects|
      ensures t.objects[c] == u.objects[c]
    {
      assert ChannelOk(s, c);
      assert s.objects[c].listeners - gone - {l} == s.objects[c].listeners - (gone + {l});
      assert c != d ==> s.objects[c].listeners - {l} == s.objects[c].listeners;
    }
    assert t.objects == u.objects;
    assert t.listeners == u.listeners;
  }

  lemma AllGone(s: State)
    requires Inv(s) && s.WellFormed() && !s.closed
    ensures HubClosed(s)
         == WithoutListeners(s, AllListeners(s, s.channels.Keys)).(channels := map[], redis := false)
  {
    var all := AllListeners(s, s.channels.Keys);
    var t, u := HubClosed(s), WithoutListeners(s, all);
    forall c | 0 <= c < |s.objects|
      ensures t.objects[c] == u.objects[c]
    {
      assert ChannelOk(s, c);
      if s.Mapped(c) {
        assert s.objects[c].listeners == ListenersOf(s, s.objects[c].name);
        assert s.objects[c].listeners - all == {};
      } else {
        forall l | l in s.objects[c].listeners
          ensures l !in all
        {
          if l in all {
            var m :| m in s.channels.Keys && l in ListenersOf(s, m);
            TargetsAreAttached(s, m, l);
          }
        }
        assert s.objects[c].listeners - all == s.objects[c].listeners;
      }
    }
    assert t.objects == u.objects;
    assert t.listeners == u.listeners;
  }

  lemma ServedIsSubscribed(s: State, name: Name)
    requires Served(s) && !s.closed && Watched(s, name)
    ensures IsSubscribed(s.commands, name)
  {
  }

  lemma TargetsExist(s: State, name: Name)
    requires Inv(s) && s.WellFormed()
    ensures forall l :: l in ListenersOf(s, name) ==> l < |s.listeners|
  {
    if name in s.channels {
      assert ChannelOk(s, s.channels[name]);
    }
  }

  lemma SentToOneMore(s: State, names: set<Name>, n: Name)
    requires Inv(s) && s.WellFormed() && n in s.channels && n !in names
    ensures Sent(Sent(s.listeners, AllListeners(s, names), Resync), ListenersOf(s, n), Resync)
         == Sent(s.listeners, AllListeners(s, names + {n}), Resync)
  {
    forall l | 0 <= l < |s.listeners|
      ensures l in AllListeners(s, names + {n}) <==> l in AllListeners(s, names) || l in ListenersOf(s, n)
      ensures !(l in AllListeners(s, names) && l in ListenersOf(s, n))
    {
      if l in ListenersOf(s, n) {
        ListenersHaveTheName(s, l, n);
      }
      if l in AllListeners(s, names) {
        var m :| m in names && l in ListenersOf(s, m);
        ListenersHaveTheName(s, l, m);
      }
    }
  }
}
