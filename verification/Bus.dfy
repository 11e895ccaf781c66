/**
 The message bus: clients register names, send to a name, or broadcast to everyone else. Names are
 C strings of at most 63 characters; an empty name means that the client has registered none.
 */
module Bus {

  const MAX_CLIENTS := 32
  const DATA_MAX := 256

  /** The data field of a message. */
  type Data = d: seq<nat> | |d| == DATA_MAX witness seq(DATA_MAX, _ => 0)

  datatype Client = Free | Client(id: nat, name: string)

  datatype Body =
    | Welcome(id: nat)
    | NameTaken(name: string)
    | NoSuchService(name: string)
    | Deliver(sender: string, verb: string, len: nat, data: seq<nat>)
    | Signal(sender: string, name: string, len: nat, data: seq<nat>)

  datatype Packet = Packet(slot: nat, serial: nat, body: Body)

  datatype Event =
    | Connect
    | Hangup(slot: nat)
    | Register(slot: nat, serial: nat, name: string)
    | Send(slot: nat, serial: nat, dest: string, verb: string, len: nat, data: Data)
    | Broadcast(slot: nat, serial: nat, signal: string, len: nat, data: Data)

  datatype State = State(clients: seq<Client>, next: nat)

  predicate Live(cs: seq<Client>, i: int)
  {
    0 <= i < |cs| && cs[i].Client?
  }

  predicate Holds(cs: seq<Client>, i: int, name: string)
  {
    Live(cs, i) && cs[i].name == name
  }

  /** The first slot from `i` that holds `name`, or the length. */
  function Holder(cs: seq<Client>, name: string, i: nat): (r: nat)
    requires i <= |cs|
    ensures i <= r <= |cs| && (r < |cs| ==> Holds(cs, r, name)) && forall k | i <= k < r :: !Holds(cs, k, name)
    decreases |cs| - i
  {
    if i == |cs| || Holds(cs, i, name) then i else Holder(cs, name, i + 1)
  }

  function FreeSlot(cs: seq<Client>, i: nat): (r: nat)
    requires i <= |cs|
    ensures i <= r <= |cs| && (r < |cs| ==> cs[r].Free?) && forall k | i <= k < r :: cs[k].Client?
    decreases |cs| - i
  {
    if i == |cs| || cs[i].Free? then i else FreeSlot(cs, i + 1)
  }

  /** The bytes that a delivery carries over; the length field is passed on as it came, whatever it says. */
  function Copied(len: nat, data: Data): seq<nat>
  {
    if 0 < len <= DATA_MAX then data[..len] else []
  }

  function Shown(name: string): string
  {
    if name == "" then "(anonymous)" else name
  }

  /** The signals sent to the first `n` slots: everyone connected but the sender. */
  function Signals(cs: seq<Client>, from: nat, n: nat, serial: nat, body: Body): seq<Packet>
    requires n <= |cs|
  {
    if n == 0 then []
    else if Live(cs, n - 1) && n - 1 != from then Signals(cs, from, n - 1, serial, body) + [Packet(n - 1, serial, body)]
    else Signals(cs, from, n - 1, serial, body)
  }

  /** One event: the new state and the packets sent. Events of slots that are not connected do not occur. */
  function Step(s: State, e: Event): (State, seq<Packet>)
  {
    var cs := s.clients;
    match e
    case Connect =>
      var i := FreeSlot(cs, 0);
      if i == |cs| then (s, []) else (State(cs[i := Client(s.next, "")], s.next + 1), [Packet(i, 0, Welcome(s.next))])
    case Hangup(c) => if Live(cs, c) then (s.(clients := cs[c := Free]), []) else (s, [])
    case Register(c, serial, name) =>
      if !Live(cs, c) then (s, [])
      else if Holder(cs, name, 0) < |cs| then (s, [Packet(c, serial, NameTaken(name))])
      else (s.(clients := cs[c := cs[c].(name := name)]), [])
    case Send(c, serial, dest, verb, len, data) =>
      if !Live(cs, c) then (s, [])
      else
        var h := Holder(cs, dest, 0);
        if h == |cs| then (s, [Packet(c, serial, NoSuchService(dest))])
        else (s, [Packet(h, serial, Deliver(Shown(cs[c].name), verb, len, Copied(len, data)))])
    case Broadcast(c, serial, signal, len, data) =>
      if !Live(cs, c) then (s, [])
      else (s, Signals(cs, c, |cs|, serial, Signal(Shown(cs[c].name), signal, len, data)))
  }

  function Run(s: State, es: seq<Event>): State
  {
    if es == [] then s else Step(Run(s, es[..|es| - 1]), es[|es| - 1]).0
  }

  // ---------------------------------------------------------------- names

  /** No two connected clients hold the same non-empty name. */
  ghost predicate NamesDistinct(cs: seq<Client>)
  {
    forall i, j, name: string | Holds(cs, i, name) && Holds(cs, j, name) && name != "" :: i == j
  }

  lemma StepKeepsNames(s: State, e: Event)
    requires NamesDistinct(s.clients)
    ensures NamesDistinct(Step(s, e).0.clients) && |Step(s, e).0.clients| == |s.clients|
  {
    var cs, ds := s.clients, Step(s, e).0.clients;
    forall i, j, name: string | Holds(ds, i, name) && Holds(ds, j, name) && name != ""
      ensures i == j
    {
      assert Holds(cs, i, name) || Holds(cs, j, name) || i == j;
      assert Holds(cs, i, name) && Holds(cs, j, name) ==> i == j;
    }
  }

  /** In every reachable state non-empty names are pairwise distinct. */
  lemma {:induction false} RunsKeepNames(s: State, es: seq<Event>)
    requires forall i | 0 <= i < |s.clients| :: s.clients[i].Free?
    ensures NamesDistinct(Run(s, es).clients) && |Run(s, es).clients| == |s.clients|
  {
    if es != [] {
      RunsKeepNames(s, es[..|es| - 1]);
      StepKeepsNames(Run(s, es[..|es| - 1]), es[|es| - 1]);
    }
  }

  /** Nobody holds the name, so a connected client that asks for it gets it. */
  ghost predicate Grants(s: State, e: Event, c: nat, name: string)
  {
    && e.Register? && e.slot == c && e.name == name && Live(s.clients, c)
    && forall k :: !Holds(s.clients, k, name)
  }

  /** REGISTER answers only to refuse, and it refuses exactly the names that someone holds. */
  lemma RegisterOutcome(s: State, c: nat, serial: nat, name: string)
    requires Live(s.clients, c)
    ensures var (t, out) := Step(s, Register(c, serial, name));
      if Grants(s, Register(c, serial, name), c, name) then Holds(t.clients, c, name) && out == []
      else t == s && out == [Packet(c, serial, NameTaken(name))]
  {
    var h := Holder(s.clients, name, 0);
    assert h < |s.clients| ==> Holds(s.clients, h, name);
  }

  /** The event takes the client's name away: it hangs up, or it is granted another name. */
  ghost predicate Drops(s: State, e: Event, c: nat)
  {
    (e.Hangup? && e.slot == c) || (e.Register? && Grants(s, e, c, e.name))
  }

  lemma HoldsAfter(s: State, e: Event, c: nat, name: string)
    requires name != ""
    ensures Holds(Step(s, e).0.clients, c, name) <==> Grants(s, e, c, name) || (Holds(s.clients, c, name) && !Drops(s, e, c))
  {
    if e.Register? && Live(s.clients, e.slot) {
      RegisterOutcome(s, e.slot, e.serial, e.name);
    }
  }

  /** Event `i` of the run granted the name, and no later one took it away. */
  ghost predicate HeldSince(s: State, es: seq<Event>, c: nat, name: string, i: nat)
  {
    && i < |es| && Grants(Run(s, es[..i]), es[i], c, name)
    && forall j | i < j < |es| :: !Drops(Run(s, es[..j]), es[j], c)
  }

  /** One more event: grants before it count as long as it takes nothing away. */
  lemma HeldSinceNext(s: State, es: seq<Event>, c: nat, name: string, i: nat)
    requires es != []
    ensures var n := |es| - 1; HeldSince(s, es, c, name, i) <==>
      if i < n then HeldSince(s, es[..n], c, name, i) && !Drops(Run(s, es[..n]), es[n], c)
      else i == n && Grants(Run(s, es[..n]), es[n], c, name)
  {
    hide Run, Grants, Drops;
    var n := |es| - 1;
    assert forall j | 0 <= j <= n :: es[..n][..j] == es[..j];
  }

  /** A client holds a name exactly when the run granted it and has not taken it away since. */
  lemma {:induction false} HeldExactly(s: State, es: seq<Event>, c: nat, name: string)
    requires name != "" && forall i | 0 <= i < |s.clients| :: s.clients[i].Free?
    ensures Holds(Run(s, es).clients, c, name) <==> exists i: nat :: HeldSince(s, es, c, name, i)
  {
    hide Step, Grants, Drops;
    if es == [] {
      assert forall i: nat :: !HeldSince(s, es, c, name, i);
    } else {
      hide HeldSince, Holds;
      var init, n := es[..|es| - 1], |es| - 1;
      HeldExactly(s, init, c, name);
      HoldsAfter(Run(s, init), es[n], c, name);
      forall i: nat
        ensures HeldSince(s, es, c, name, i) <==>
          if i < n then HeldSince(s, init, c, name, i) && !Drops(Run(s, init), es[n], c)
          else i == n && Grants(Run(s, init), es[n], c, name)
      {
        HeldSinceNext(s, es, c, name, i);
      }
      assert HeldSince(s, es, c, name, n) <==> Grants(Run(s, init), es[n], c, name);
      assert forall i: nat | HeldSince(s, init, c, name, i) :: i < n by {
        HeldInRange(s, init, c, name);
      }
    }
  }

  lemma HeldInRange(s: State, es: seq<Event>, c: nat, name: string)
    ensures forall i: nat | HeldSince(s, es, c, name, i) :: i < |es|
  {
  }

  /** A new client gets the next number and no name, unless every slot is taken. */
  lemma ConnectOutcome(s: State, c: nat)
    ensures var (t, out) := Step(s, Connect);
      if exists k | 0 <= k < |s.clients| :: s.clients[k].Free? then
        && |out| == 1 && out[0].body == Welcome(s.next) && t.next == s.next + 1
        && out[0].slot < |s.clients| && s.clients[out[0].slot].Free?
        && t.clients == s.clients[out[0].slot := Client(s.next, "")]
      else t == s && out == []
  {
    assert FreeSlot(s.clients, 0) == |s.clients| ==> forall k | 0 <= k < |s.clients| :: s.clients[k].Client?;
  }

  /** A client that hangs up leaves its slot to the next newcomer; the others keep their places and names. */
  lemma HangupOutcome(s: State, c: nat, slot: nat)
    requires Live(s.clients, c)
    ensures var (t, out) := Step(s, Hangup(c));
      && out == [] && t.next == s.next && !Live(t.clients, c) && (slot != c ==> Live(t.clients, slot) == Live(s.clients, slot))
      && (slot != c && Live(s.clients, slot) ==> t.clients[slot] == s.clients[slot])
      && ((forall k | 0 <= k < c :: Live(s.clients, k)) ==> Live(Step(t, Connect).0.clients, c))
  {
    var t := Step(s, Hangup(c)).0;
    if forall k | 0 <= k < c :: Live(s.clients, k) {
      forall k | 0 <= k < c
        ensures t.clients[k].Client?
      {
        assert Live(s.clients, k);
      }
      var r := FreeSlot(t.clients, 0);
      assert t.clients[c].Free? && r >= c;
    }
  }

  // ---------------------------------------------------------------- routing

  /** The body names its sender, passes on the length, and carries the announced bytes when they fit the message. */
  ghost predicate Delivers(b: Body, from: Client, verb: string, len: nat, data: Data)
    requires from.Client?
  {
    && b.Deliver? && b.verb == verb && b.len == len
    && (from.name != "" ==> b.sender == from.name) && (from.name == "" ==> b.sender == "(anonymous)")
    && |b.data| == (if len <= DATA_MAX then len else 0) && forall k | 0 <= k < |b.data| :: b.data[k] == data[k]
  }

  /** A SEND to a name yields one packet with its serial: to the name's only holder, or an error to the sender. */
  lemma SentOnce(s: State, c: nat, serial: nat, dest: string, verb: string, len: nat, data: Data, h: nat)
    requires NamesDistinct(s.clients) && Live(s.clients, c) && dest != ""
    ensures var out := Step(s, Send(c, serial, dest, verb, len, data)).1;
      && |out| == 1 && out[0].serial == serial
      && (Holds(s.clients, h, dest) ==> out[0].slot == h && Delivers(out[0].body, s.clients[c], verb, len, data))
      && ((forall k :: !Holds(s.clients, k, dest)) <==> out[0].body == NoSuchService(dest))
      && (out[0].body == NoSuchService(dest) ==> out[0].slot == c)
  {
    var r := Holder(s.clients, dest, 0);
    assert r < |s.clients| ==> Holds(s.clients, r, dest);
  }

  function CountTo(ps: seq<Packet>, slot: nat): nat
  {
    if ps == [] then 0 else CountTo(ps[..|ps| - 1], slot) + if ps[|ps| - 1].slot == slot then 1 else 0
  }

  /** A broadcast reaches every other connected client exactly once, and nobody else. */
  lemma {:induction false} SignalledOnce(cs: seq<Client>, from: nat, n: nat, serial: nat, body: Body, slot: nat)
    requires n <= |cs|
    ensures var ps := Signals(cs, from, n, serial, body);
      && CountTo(ps, slot) == (if slot < n && Live(cs, slot) && slot != from then 1 else 0)
      && forall p | p in ps :: p.serial == serial && p.body == body
  {
    if n > 0 {
      SignalledOnce(cs, from, n - 1, serial, body, slot);
      var init := Signals(cs, from, n - 1, serial, body);
      assert (init + [Packet(n - 1, serial, body)])[..|init|] == init;
    }
  }

  /** BROADCAST sends the sender's signal once to every other connected client; it leaves the table as it was. */
  lemma BroadcastReaches(s: State, c: nat, serial: nat, signal: string, len: nat, data: Data, slot: nat)
    requires Live(s.clients, c)
    ensures var (t, out) := Step(s, Broadcast(c, serial, signal, len, data)); var name := s.clients[c].name;
      && t == s && CountTo(out, slot) == (if Live(s.clients, slot) && slot != c then 1 else 0)
      && forall p | p in out :: p.serial == serial && p.body == Signal(if name == "" then "(anonymous)" else name, signal, len, data)
  {
    SignalledOnce(s.clients, c, |s.clients|, serial, Signal(Shown(s.clients[c].name), signal, len, data), slot);
  }

  // ---------------------------------------------------------------- the daemon

  class Daemon {
    var clients: seq<Client>
    var next: nat
    /** Everything sent so far, in order. */
    ghost var sent: seq<Packet>

    ghost function Now(): State
      reads this
    {
      State(clients, next)
    }

    ghost predicate Valid()
      reads this
    {
      |clients| == MAX_CLIENTS && NamesDistinct(clients)
    }

    constructor ()
      ensures Valid() && sent == [] && forall i | 0 <= i < |clients| :: clients[i].Free?
    {
      clients := seq(MAX_CLIENTS, _ => Free);
      next, sent := 1, [];
    }

    ghost method Post(p: Packet)
      modifies this`sent
      ensures sent == old(sent) + [p]
    {
      sent := sent + [p];
    }

    /** find_by_name; -1 when nobody connected has the name. */
    method FindByName(name: string) returns (r: int)
      ensures r == if Holder(clients, name, 0) < |clients| then Holder(clients, name, 0) else -1
    {
      for i := 0 to |clients|
        invariant Holder(clients, name, 0) == Holder(clients, name, i)
      {
        if clients[i].Client? && clients[i].name == name {
          return i;
        }
      }
      return -1;
    }

    /** accept_client. */
    method Accept()
      requires Valid()
      modifies this
      ensures Valid() && Now() == Step(old(Now()), Connect).0 && sent == old(sent) + Step(old(Now()), Connect).1
    {
      StepKeepsNames(Now(), Connect);
      var i := 0;
      while i < |clients| && !clients[i].Free?
        invariant 0 <= i <= |clients| && FreeSlot(clients, 0) == FreeSlot(clients, i)
      {
        i := i + 1;
      }
      if i == |clients| {
        return;
      }
      clients := clients[i := Client(next, "")];
      Post(Packet(i, 0, Welcome(next)));
      next := next + 1;
    }

    /** disconnect_client. */
    method Disconnect(c: nat)
      requires Valid() && Live(clients, c)
      modifies this
      ensures Valid() && Now() == Step(old(Now()), Hangup(c)).0 && sent == old(sent)
    {
      StepKeepsNames(Now(), Hangup(c));
      clients := clients[c := Free];
    }

    /** The message switch for a well-formed request of a connected client. */
    method Handle(e: Event)
      requires Valid() && (e.Register? || e.Send? || e.Broadcast?) && Live(clients, e.slot)
      modifies this
      ensures Valid() && Now() == Step(old(Now()), e).0 && sent == old(sent) + Step(old(Now()), e).1
    {
      StepKeepsNames(Now(), e);
      match e
      case Register(c, serial, name) =>
        var h := FindByName(name);
        if h >= 0 {
          Post(Packet(c, serial, NameTaken(name)));
        } else {
          clients := clients[c := clients[c].(name := name)];
        }
      case Send(c, serial, dest, verb, len, data) =>
        var h := FindByName(dest);
        if h < 0 {
          Post(Packet(c, serial, NoSuchService(dest)));
        } else {
          Post(Packet(h, serial, Deliver(Shown(clients[c].name), verb, len, Copied(len, data))));
        }
      case Broadcast(c, serial, signal, len, data) =>
        var body := Signal(Shown(clients[c].name), signal, len, data);
        for i := 0 to |clients|
          invariant clients == old(clients) && next == old(next)
          invariant sent == old(sent) + Signals(clients, c, i, serial, body)
        {
          if clients[i].Client? && i != c {
            Post(Packet(i, serial, body));
          }
        }
    }
  }
}
