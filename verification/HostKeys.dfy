/** Which SSH host keys connections accept, and what becomes of the pins when several
    connect at once (backend/app/scanner/host_keys.py, the key store of backend/app/api/wiring.py and
    the pins of backend/app/data/repository.py).

    The protocol is a state machine whose steps are the moments other connections can
    come between: reading the pin, the handshake, the login, the guard, the insert and
    the second look after losing a race. */
module HostKeys {
  import opened Text

  /** A public key; the blob is what two keys are compared by when they race. */
  datatype HostKey = HostKey(keyType: string, blob: string)

  /** The form an address is pinned under. */
  type Address = (string, nat)

  function AddressOf(hostname: string, port: nat): Address {
    (Lower(Strip(hostname)), port)
  }

  datatype Policy = Tofu | Strict

  type Pins = map<Address, HostKey>

  function Lookup(pins: Pins, address: Address): Option<HostKey> {
    if address in pins then Some(pins[address]) else None
  }

  // One caller alone: the store and the connection as the code writes them.

  datatype Outcome = Returned | Mismatched | Unknown | Failed

  /** What one connection does to the pins, how it ends and whether it sent credentials. */
  predicate Connects(before: Pins, address: Address, policy: Policy, key: HostKey, login: bool,
                     after: Pins, outcome: Outcome, sent: bool) {
    var pinned := Lookup(before, address);
    && (sent <==> pinned == Some(key) || (pinned == None && policy == Tofu))
    && (!sent ==> after == before && outcome == if pinned.Some? then Mismatched else Unknown)
    && (sent ==> outcome == (if login then Returned else Failed)
                 && after == if login then before[address := key] else before)
  }

  class KeyStore {
    var pins: Pins

    constructor ()
      ensures pins == map[]
    {
      pins := map[];
    }

    method Get(hostname: string, port: nat) returns (key: Option<HostKey>)
      ensures key == Lookup(pins, AddressOf(hostname, port))
    {
      var address := AddressOf(hostname, port);
      key := if address in pins then Some(pins[address]) else None;
    }

    /** `ok` says whether the address was free; otherwise nothing is written. */
    method PinHostKey(hostname: string, port: nat, key: HostKey) returns (ok: bool)
      modifies this
      ensures ok <==> AddressOf(hostname, port) !in old(pins)
      ensures pins == if ok then old(pins)[AddressOf(hostname, port) := key] else old(pins)
    {
      var address := AddressOf(hostname, port);
      ok := address !in pins;
      if ok {
        pins := pins[address := key];
      }
    }

    /** What the loser of a race is told depends only on whether the blobs agree. */
    method Pin(hostname: string, port: nat, key: HostKey) returns (outcome: Outcome)
      modifies this
      ensures var address := AddressOf(hostname, port);
              && (address !in old(pins) ==> outcome == Returned && pins == old(pins)[address := key])
              && (address in old(pins) ==>
                    pins == old(pins) && outcome == if old(pins)[address].blob == key.blob then Returned else Mismatched)
    {
      var ok := PinHostKey(hostname, port, key);
      if ok {
        return Returned;
      }
      var pinned := Get(hostname, port);
      if pinned.None? {
        return Failed;
      }
      return if pinned.value.blob != key.blob then Mismatched else Returned;
    }

    method ForgetHostKey(hostname: string, port: nat) returns (found: bool)
      modifies this
      ensures found <==> AddressOf(hostname, port) in old(pins)
      ensures pins == old(pins) - {AddressOf(hostname, port)}
    {
      var address := AddressOf(hostname, port);
      found := address in pins;
      pins := pins - {address};
    }

    /** `connect_pinned` against a host that presents `key`; `login` says whether the
        host accepts the credentials, which `sent` says it received. */
    method ConnectPinned(hostname: string, port: nat, policy: Policy, key: HostKey, login: bool)
      returns (outcome: Outcome, sent: bool)
      modifies this
      ensures Connects(old(pins), AddressOf(hostname, port), policy, key, login, pins, outcome, sent)
    {
      var pinned := Get(hostname, port);
      if pinned.Some? {
        if pinned.value != key {
          return Mismatched, false;
        }
        if !login {
          return Failed, true;
        }
        assert pins[AddressOf(hostname, port) := key] == pins;
        return Returned, true;
      }
      if policy == Strict {
        return Unknown, false;
      }
      if !login {
        return Failed, true;
      }
      outcome := Pin(hostname, port, key);
      sent := true;
    }
  }

  // Many callers at once.

  datatype Phase =
    | Idle
    | Ready                  // the pin has been read
    | Authenticating         // the presented key passed; credentials are on their way
    | Pinning                // logged in with nothing pinned; about to look again
    | Inserting              // the guard saw no pin
    | Conflict               // someone pinned first
    | Done(outcome: Outcome)

  /** One connection. `begun` and `checked` are the steps at which the pin was read and
      at which the presented key last agreed with the pin; 0 until then. */
  datatype Connection = Connection(
    address: Address, policy: Policy, stored: bool, phase: Phase,
    pinned: Option<HostKey>, presented: Option<HostKey>, sent: bool, begun: nat, checked: nat)

  type Id = nat

  datatype State = State(pins: Pins, connections: map<Id, Connection>, clock: nat)

  datatype Action =
    | Open(id: Id, address: Address, policy: Policy, stored: bool)
    | Read(id: Id)
    | Present(id: Id, key: HostKey)
    | Login(id: Id, accepted: bool)
    | Guard(id: Id)
    | Insert(id: Id)
    | LookAgain(id: Id)
    | Abort(id: Id)
    | Forget(address: Address)

  /** What a connection becomes; `now` is the step being taken. An action that does not
      fit the phase changes nothing. */
  function Advance(c: Connection, a: Action, pins: Pins, now: nat): Connection {
    match a
    case Read(_) =>
      if c.phase != Idle then c
      else c.(phase := Ready, pinned := if c.stored then Lookup(pins, c.address) else None, begun := now, checked := now)
    case Present(_, key) =>
      if c.phase != Ready then c
      else if c.pinned.Some? && c.pinned.value != key then c.(phase := Done(Mismatched), presented := Some(key))
      else if c.pinned.None? && (c.policy == Strict || !c.stored) then c.(phase := Done(Unknown), presented := Some(key))
      else c.(phase := Authenticating, presented := Some(key), sent := true)
    case Login(_, accepted) =>
      if c.phase != Authenticating then c
      else if !accepted then c.(phase := Done(Failed))
      else if c.pinned.Some? then c.(phase := Done(Returned))
      else c.(phase := Pinning)
    case Guard(_) =>
      if c.phase != Pinning then c
      else c.(phase := if c.address in pins then Conflict else Inserting)
    case Insert(_) =>
      if c.phase != Inserting then c
      else if c.address in pins then c.(phase := Conflict)
      else c.(phase := Done(Returned), checked := now + 1)
    case LookAgain(_) =>
      if c.phase != Conflict then c
      else if c.address !in pins then c.(phase := Done(Failed))
      else if c.presented.Some? && pins[c.address].blob == c.presented.value.blob
      then c.(phase := Done(Returned), checked := now)
      else c.(phase := Done(Mismatched))
    case Abort(_) =>
      if c.phase.Done? then c else c.(phase := Done(Failed))
    case Open(_, _, _, _) => c
    case Forget(_) => c
  }

  function PinsAfter(st: State, a: Action): Pins {
    match a
    case Forget(address) => st.pins - {address}
    case Insert(id) =>
      if id in st.connections && st.connections[id].phase == Inserting && st.connections[id].address !in st.pins
         && st.connections[id].presented.Some?
      then st.pins[st.connections[id].address := st.connections[id].presented.value] else st.pins
    case _ => st.pins
  }

  function ConnectionsAfter(st: State, a: Action): map<Id, Connection> {
    match a
    case Forget(_) => st.connections
    case Open(id, address, policy, stored) =>
      if id in st.connections then st.connections
      else st.connections[id := Connection(address, policy, stored, Idle, None, None, false, 0, 0)]
    case _ =>
      if a.id in st.connections
      then st.connections[a.id := Advance(st.connections[a.id], a, st.pins, st.clock)] else st.connections
  }

  function Step(st: State, a: Action): State {
    State(PinsAfter(st, a), ConnectionsAfter(st, a), st.clock + 1)
  }

  const START := State(map[], map[], 0)

  /** The state after the first n actions of an interleaving. */
  function At(actions: seq<Action>, n: nat): State
    requires n <= |actions|
  {
    if n == 0 then START else Step(At(actions, n - 1), actions[n - 1])
  }

  // What holds of every interleaving.

  /** A pin changes only through forgetting it. */
  lemma StepKeepsPin(st: State, a: Action, address: Address)
    requires address in st.pins && a != Forget(address)
    ensures address in Step(st, a).pins && Step(st, a).pins[address] == st.pins[address]
  {
  }

  lemma {:induction false} PinsLast(actions: seq<Action>, i: nat, j: nat, address: Address)
    requires i <= j <= |actions| && address in At(actions, i).pins
    requires forall k :: i <= k < j ==> actions[k] != Forget(address)
    ensures address in At(actions, j).pins && At(actions, j).pins[address] == At(actions, i).pins[address]
    decreases j
  {
    if i < j {
      PinsLast(actions, i, j - 1, address);
      StepKeepsPin(At(actions, j - 1), actions[j - 1], address);
    }
  }

  /** The store held this key for this address at step n. */
  predicate PinnedAt(actions: seq<Action>, n: nat, address: Address, key: HostKey) {
    n <= |actions| && address in At(actions, n).pins && At(actions, n).pins[address].blob == key.blob
  }

  /** Credentials went out only to a host whose key passed: it matched the pin that was
      read, or nothing was pinned and the policy is to trust the first use. */
  predicate SentProperly(c: Connection) {
    c.sent ==>
      && c.presented.Some? && c.stored
      && (c.pinned == c.presented || (c.pinned == None && c.policy == Tofu))
  }

  predicate PhaseFits(c: Connection) {
    && (c.pinned.Some? ==> c.stored)
    && match c.phase
    case Idle => !c.sent && c.presented == None && c.pinned == None
    case Ready => !c.sent && c.presented == None
    case Authenticating => c.sent
    case Pinning => c.sent && c.pinned == None
    case Inserting => c.sent && c.pinned == None
    case Conflict => c.sent && c.pinned == None
    case Done(outcome) => (outcome == Unknown ==> !c.sent) && (outcome == Returned ==> c.sent)
  }

  /** A connection that returned presented the key the store held when it was checked. */
  ghost predicate Sound(actions: seq<Action>, n: nat, c: Connection)
    requires n <= |actions|
  {
    && SentProperly(c) && PhaseFits(c) && c.begun <= c.checked <= n
    && (c.pinned.Some? ==> PinnedAt(actions, c.checked, c.address, c.pinned.value))
    && (c.phase == Done(Returned) ==> c.presented.Some? && PinnedAt(actions, c.checked, c.address, c.presented.value))
  }

  lemma {:induction false} ClockIs(actions: seq<Action>, n: nat)
    requires n <= |actions|
    ensures At(actions, n).clock == n
  {
    if n > 0 {
      ClockIs(actions, n - 1);
    }
  }

  lemma AdvanceFits(c: Connection, a: Action, pins: Pins, now: nat)
    requires SentProperly(c) && PhaseFits(c) && c.begun <= c.checked <= now
    ensures var d := Advance(c, a, pins, now);
            && SentProperly(d) && PhaseFits(d) && d.begun <= d.checked <= now + 1
            && d.address == c.address
  {
  }

  /** A connection can return in three ways, each right after its key was checked. */
  lemma AdvanceChecked(c: Connection, a: Action, pins: Pins, now: nat)
    requires SentProperly(c) && PhaseFits(c)
    ensures var d := Advance(c, a, pins, now);
            && (d.pinned.Some? && d != c ==>
                  if c.phase == Idle then d.checked == now && Lookup(pins, c.address) == d.pinned
                  else d.pinned == c.pinned && d.checked == c.checked)
            && (d.phase == Done(Returned) && d != c ==>
                  || (d.pinned == d.presented && d.pinned.Some?)
                  || (d.checked == now + 1 && a.Insert? && c.phase == Inserting && c.address !in pins
                      && d.presented == c.presented)
                  || (d.checked == now && c.address in pins && d.presented.Some?
                      && pins[c.address].blob == d.presented.value.blob))
  {
  }

  lemma AdvanceSound(actions: seq<Action>, n: nat, c: Connection, id: Id)
    requires n < |actions| && Sound(actions, n, c) && At(actions, n).clock == n
    requires id in At(actions, n).connections && c == At(actions, n).connections[id]
    requires !actions[n].Open? && !actions[n].Forget? && actions[n].id == id
    ensures Sound(actions, n + 1, Advance(c, actions[n], At(actions, n).pins, n))
  {
    var a, pins := actions[n], At(actions, n).pins;
    var d := Advance(c, a, pins, n);
    AdvanceFits(c, a, pins, n);
    AdvanceChecked(c, a, pins, n);
    if a.Insert? && c.phase == Inserting && c.address !in pins {
      assert At(actions, n + 1).pins == pins[c.address := c.presented.value];
    }
  }

  /** Every connection of every interleaving is sound. */
  lemma {:induction false} AlwaysSound(actions: seq<Action>, n: nat, id: Id)
    requires n <= |actions| && id in At(actions, n).connections
    ensures Sound(actions, n, At(actions, n).connections[id])
  {
    if n > 0 {
      var before, a := At(actions, n - 1), actions[n - 1];
      ClockIs(actions, n - 1);
      if id in before.connections {
        AlwaysSound(actions, n - 1, id);
        if !a.Open? && !a.Forget? && a.id == id {
          AdvanceSound(actions, n - 1, before.connections[id], id);
        }
      }
    }
  }

  /** Whatever the interleaving, credentials went out only after the presented key
      matched the pin that was read, or when none was and the policy is tofu. A strict
      connection with no pin, one with no store and one whose host presented another key
      than the pinned one never sent any. */
  lemma CredentialsSentProperly(actions: seq<Action>, n: nat, id: Id)
    requires n <= |actions| && id in At(actions, n).connections
    ensures var c := At(actions, n).connections[id];
            && SentProperly(c)
            && (!c.stored || c.phase == Done(Unknown) ==> !c.sent)
            && (c.policy == Strict && c.pinned == None ==> !c.sent)
            && (c.pinned.Some? && c.presented.Some? && c.presented != c.pinned ==> !c.sent)
  {
    AlwaysSound(actions, n, id);
  }

  lemma SameKeyInOrder(actions: seq<Action>, n: nat, first: Connection, second: Connection)
    requires n <= |actions| && Sound(actions, n, first) && Sound(actions, n, second)
    requires first.phase == second.phase == Done(Returned)
    requires first.address == second.address && first.checked <= second.checked
    requires forall k :: first.checked <= k < second.checked ==> actions[k] != Forget(first.address)
    ensures first.presented.value.blob == second.presented.value.blob
  {
    PinsLast(actions, first.checked, second.checked, first.address);
  }

  /** Two connections to one address that returned normally presented the same key,
      unless the address was forgotten between the two moments their keys were checked. */
  lemma SameKey(actions: seq<Action>, n: nat, i: Id, j: Id)
    requires n <= |actions| && i in At(actions, n).connections && j in At(actions, n).connections
    requires var c, d := At(actions, n).connections[i], At(actions, n).connections[j];
             && c.phase == d.phase == Done(Returned) && c.address == d.address
             && forall k :: Min(c.checked, d.checked) <= k < Max(c.checked, d.checked) && k < |actions|
                            ==> actions[k] != Forget(c.address)
    ensures At(actions, n).connections[i].presented.Some? && At(actions, n).connections[j].presented.Some?
    ensures At(actions, n).connections[i].presented.value.blob == At(actions, n).connections[j].presented.value.blob
  {
    var c, d := At(actions, n).connections[i], At(actions, n).connections[j];
    AlwaysSound(actions, n, i);
    AlwaysSound(actions, n, j);
    if c.checked <= d.checked {
      SameKeyInOrder(actions, n, c, d);
    } else {
      SameKeyInOrder(actions, n, d, c);
    }
  }

  /** In particular when nobody forgot the address since the earlier of the two began. */
  lemma SameKeySinceBegun(actions: seq<Action>, n: nat, i: Id, j: Id)
    requires n <= |actions| && i in At(actions, n).connections && j in At(actions, n).connections
    requires var c, d := At(actions, n).connections[i], At(actions, n).connections[j];
             && c.phase == d.phase == Done(Returned) && c.address == d.address
             && forall k :: Min(c.begun, d.begun) <= k < n ==> actions[k] != Forget(c.address)
    ensures At(actions, n).connections[i].presented.Some? && At(actions, n).connections[j].presented.Some?
    ensures At(actions, n).connections[i].presented.value.blob == At(actions, n).connections[j].presented.value.blob
  {
    AlwaysSound(actions, n, i);
    AlwaysSound(actions, n, j);
    SameKey(actions, n, i, j);
  }

  function Min(a: nat, b: nat): nat {
    if a < b then a else b
  }

  function Max(a: nat, b: nat): nat {
    if a < b then b else a
  }

  function Fresh(address: Address, policy: Policy): Connection {
    Connection(address, policy, true, Idle, None, None, false, 0, 0)
  }

  /** Reading the pin and the handshake, alone. */
  lemma HandshakeAlone(pins: Pins, address: Address, policy: Policy, key: HostKey) returns (st: State, c: Connection)
    ensures st == Step(Step(State(pins, map[0 := Fresh(address, policy)], 0), Read(0)), Present(0, key))
    ensures st.pins == pins && st.connections == map[0 := c]
    ensures c.address == address && c.pinned == Lookup(pins, address) && c.presented == Some(key)
    ensures c.sent <==> c.pinned == Some(key) || (c.pinned == None && policy == Tofu)
    ensures c.phase == if c.sent then Authenticating else Done(if c.pinned.Some? then Mismatched else Unknown)
  {
    c := Fresh(address, policy);
    st := State(pins, map[0 := c], 0);
    st, c := Take(st, c, Read(0));
    st, c := Take(st, c, Present(0, key));
  }

  /** Logging in and pinning, alone. */
  lemma LoginAlone(st0: State, c0: Connection, login: bool) returns (st: State, c: Connection)
    requires st0.connections == map[0 := c0] && c0.presented.Some? && c0.pinned == Lookup(st0.pins, c0.address)
    requires c0.phase.Done? || c0.phase == Authenticating
    ensures st == Step(Step(Step(st0, Login(0, login)), Guard(0)), Insert(0)) && st.connections == map[0 := c]
    ensures c.sent == c0.sent && c.phase.Done?
    ensures c0.phase.Done? ==> c.phase == c0.phase && st.pins == st0.pins
    ensures !c0.phase.Done? ==> c.phase == Done(if login then Returned else Failed)
    ensures !c0.phase.Done? ==>
              st.pins == if login && c0.pinned == None then st0.pins[c0.address := c0.presented.value] else st0.pins
  {
    st, c := Take(st0, c0, Login(0, login));
    st, c := Take(st, c, Guard(0));
    st, c := Take(st, c, Insert(0));
  }

  /** A connection that nobody comes between does what `connect_pinned` does, which ties
      the interleaved steps to the method. */
  lemma UndisturbedConnects(pins: Pins, address: Address, policy: Policy, key: HostKey, login: bool)
    returns (last: State)
    ensures last == Step(Step(Step(Step(Step(State(pins, map[0 := Fresh(address, policy)], 0),
                                             Read(0)), Present(0, key)), Login(0, login)), Guard(0)), Insert(0))
    ensures 0 in last.connections && last.connections[0].phase.Done?
    ensures Connects(pins, address, policy, key, login,
                     last.pins, last.connections[0].phase.outcome, last.connections[0].sent)
  {
    var st, c := HandshakeAlone(pins, address, policy, key);
    var d;
    last, d := LoginAlone(st, c, login);
    assert address in pins && pins[address] == key ==> pins[address := key] == pins;
  }

  lemma Take(st: State, c: Connection, a: Action) returns (next: State, d: Connection)
    requires st.connections == map[0 := c] && !a.Open? && !a.Forget? && a.id == 0
    ensures next == Step(st, a) && d == Advance(c, a, st.pins, st.clock) && next.connections == map[0 := d]
    ensures next.pins ==
            if a.Insert? && c.phase == Inserting && c.address !in st.pins && c.presented.Some?
            then st.pins[c.address := c.presented.value] else st.pins
  {
    next, d := Step(st, a), Advance(c, a, st.pins, st.clock);
  }

  // Which addresses are one.

  /** Pins are kept apart by port, and by name but for its case and the space around it. */
  lemma AddressesTold(hostname: string, port: nat, other: string, otherPort: nat)
    ensures AddressOf(hostname, port) == AddressOf(other, otherPort) <==>
              var s, t := Strip(hostname), Strip(other);
              port == otherPort && |s| == |t| && forall i :: 0 <= i < |s| ==> CaseAlike(s[i], t[i])
  {
    LowerAlike(Strip(hostname), Strip(other));
  }

  // Where pins come from.

  /** A connection that ended well after trusting the first key it saw. */
  predicate Trusted(c: Connection, address: Address, key: HostKey) {
    && c.address == address && c.presented == Some(key) && c.phase == Done(Returned)
    && c.policy == Tofu && c.stored && c.sent
  }

  ghost predicate PinnedBySomeone(st: State, address: Address) {
    address in st.pins ==> exists id :: id in st.connections && Trusted(st.connections[id], address, st.pins[address])
  }

  /** What ended stays as it ended. */
  lemma TrustedLasts(st: State, a: Action, id: Id, address: Address, key: HostKey)
    requires id in st.connections && Trusted(st.connections[id], address, key)
    ensures id in Step(st, a).connections && Trusted(Step(st, a).connections[id], address, key)
  {
  }

  lemma PinnedNow(actions: seq<Action>, n: nat, address: Address)
    requires n < |actions| && address !in At(actions, n).pins && address in At(actions, n + 1).pins
    ensures PinnedBySomeone(At(actions, n + 1), address)
  {
    var a, st := actions[n], At(actions, n);
    AlwaysSound(actions, n, a.id);
    assert Trusted(At(actions, n + 1).connections[a.id], address, At(actions, n + 1).pins[address]);
  }

  /** In every interleaving a pin is the key a host presented to a connection that may
      trust first keys, and that then logged in there. */
  lemma {:induction false} PinsWereTrusted(actions: seq<Action>, n: nat, address: Address)
    requires n <= |actions|
    ensures PinnedBySomeone(At(actions, n), address)
  {
    if n > 0 && address in At(actions, n).pins {
      var before, a := At(actions, n - 1), actions[n - 1];
      if address in before.pins {
        PinsWereTrusted(actions, n - 1, address);
        var id :| id in before.connections && Trusted(before.connections[id], address, before.pins[address]);
        TrustedLasts(before, a, id, address, before.pins[address]);
      } else {
        PinnedNow(actions, n - 1, address);
      }
    }
  }

  // How connections end.

  /** Mismatched: another key was pinned before, and no credentials went out, or was pinned
      meanwhile. Unknown: nothing was pinned, and first keys are not trusted or no store
      is at hand. */
  predicate EndsProperly(c: Connection) {
    && (c.phase == Done(Mismatched) ==>
          c.presented.Some? && if c.pinned.Some? then c.presented != c.pinned && !c.sent else c.sent)
    && (c.phase == Done(Unknown) ==>
          c.presented.Some? && c.pinned == None && !c.sent && (c.policy == Strict || !c.stored))
  }

  lemma AdvanceEnds(c: Connection, a: Action, pins: Pins, now: nat)
    requires SentProperly(c) && PhaseFits(c) && EndsProperly(c)
    ensures EndsProperly(Advance(c, a, pins, now))
  {
  }

  lemma {:induction false} AlwaysEndsProperly(actions: seq<Action>, n: nat, id: Id)
    requires n <= |actions| && id in At(actions, n).connections
    ensures EndsProperly(At(actions, n).connections[id])
  {
    if n > 0 {
      var before, a := At(actions, n - 1), actions[n - 1];
      if id in before.connections {
        AlwaysEndsProperly(actions, n - 1, id);
        AlwaysSound(actions, n - 1, id);
        AdvanceEnds(before.connections[id], a, before.pins, before.clock);
      }
    }
  }
}
