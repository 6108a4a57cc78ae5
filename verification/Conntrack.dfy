/**
 * The conntrack table the NAT paths share, and the TCP state machine that
 * removes its entries. Both directions of a flow are separate entries; closing
 * one direction finds the other through a key derived from its own value.
 */
module Conntrack {
  import opened Types

  type SubnetId = nat

  /** A keyspace: 0 is the host-facing one, any other number a Vpc. */
  type Scope = nat

  const HOST_SCOPE: Scope := 0

  datatype CtKey = CtKey(scope: Scope, t: Tuple)

  datatype Action =
    | Dnat | Snat
    | NaptOut | NaptIn
    | SvcNaptOut | SvcNaptIn
    | SharedOut | SharedIn

  datatype CtState = New | Established | FinWait | Closed

  datatype CtVal = CtVal(
    newSaddr: Addr,
    newDaddr: Addr,
    newSport: Port,
    newDport: Port,
    nextSubnet: SubnetId,
    action: Action,
    state: CtState,
    flagsSeen: set<TcpFlag>,
    lastSeen: nat)

  type Entries = map<CtKey, CtVal>

  /** subnet_map, reduced to what conntrack reads: the Vpc of a Subnet. */
  type SubnetVpcs = map<SubnetId, Scope>

  // ---- TCP state machine ---------------------------------------------------

  function DeriveNextState(cur: CtState, flags: set<TcpFlag>): CtState {
    if Rst in flags then Closed
    else if Fin in flags then (if cur == FinWait then Closed else FinWait)
    else if cur == New && Ack in flags then Established
    else cur
  }

  function InitialState(flags: set<TcpFlag>): CtState {
    if Syn in flags then New else Established
  }

  /** Whether an entry in state `cur` is still in the table after it observed `packets`. */
  predicate Survives(cur: CtState, packets: seq<set<TcpFlag>>)
    decreases packets
  {
    packets == [] ||
    (DeriveNextState(cur, packets[0]) != Closed &&
     Survives(DeriveNextState(cur, packets[0]), packets[1..]))
  }

  function CountFin(packets: seq<set<TcpFlag>>): nat {
    if packets == [] then 0
    else (if Fin in packets[0] then 1 else 0) + CountFin(packets[1..])
  }

  predicate NoRst(packets: seq<set<TcpFlag>>) {
    forall i :: 0 <= i < |packets| ==> Rst !in packets[i]
  }

  /** What each state still tolerates: no RST, and one FIN unless one was already seen. */
  lemma {:induction false} SurvivesFrom(cur: CtState, packets: seq<set<TcpFlag>>)
    requires cur != Closed
    ensures Survives(cur, packets) <==>
            NoRst(packets) && CountFin(packets) <= (if cur == FinWait then 0 else 1)
    decreases packets
  {
    if packets != [] {
      var next := DeriveNextState(cur, packets[0]);
      assert packets == [packets[0]] + packets[1..];
      if next != Closed {
        SurvivesFrom(next, packets[1..]);
      }
    }
  }

  /**
   * An entry seeded by a SYN or mid-flow and then shown a packet sequence is
   * still there exactly when none of them was a RST and at most one a FIN.
   */
  lemma SeededEntrySurvives(first: set<TcpFlag>, packets: seq<set<TcpFlag>>)
    ensures Survives(InitialState(first), packets) <==> NoRst(packets) && CountFin(packets) <= 1
  {
    SurvivesFrom(InitialState(first), packets);
  }

  /** The state of an entry after it observed `packets`. */
  function StateAfter(cur: CtState, packets: seq<set<TcpFlag>>): CtState
    decreases packets
  {
    if packets == [] then cur else StateAfter(DeriveNextState(cur, packets[0]), packets[1..])
  }

  /** No packet acknowledges anything. */
  predicate NoAck(packets: seq<set<TcpFlag>>) {
    forall i :: 0 <= i < |packets| ==> Ack !in packets[i]
  }

  lemma {:induction false} StateFrom(cur: CtState, packets: seq<set<TcpFlag>>)
    requires cur != Closed && Survives(cur, packets)
    ensures StateAfter(cur, packets) ==
            if cur == FinWait || CountFin(packets) > 0 then FinWait
            else if cur == New && NoAck(packets) then New
            else Established
    decreases packets
  {
    if packets != [] {
      var next := DeriveNextState(cur, packets[0]);
      assert packets == [packets[0]] + packets[1..];
      assert NoAck(packets) <==> Ack !in packets[0] && NoAck(packets[1..]);
      StateFrom(next, packets[1..]);
    }
  }

  /**
   * The state of a surviving entry says what it has seen: FinWait a FIN after the
   * first packet, New a SYN first and nothing acknowledged since, Established the rest.
   */
  lemma StateTellsTheHistory(first: set<TcpFlag>, packets: seq<set<TcpFlag>>)
    requires NoRst(packets) && CountFin(packets) <= 1
    ensures StateAfter(InitialState(first), packets) ==
            if CountFin(packets) == 1 then FinWait else if Syn in first && NoAck(packets) then New else Established
  {
    SeededEntrySurvives(first, packets);
    StateFrom(InitialState(first), packets);
  }

  // ---- The opposite key ----------------------------------------------------

  function OppositeTuple(self: Tuple, v: CtVal): Tuple {
    match v.action
    case SvcNaptOut | SvcNaptIn | SharedOut | SharedIn =>
      Tuple(v.newDaddr, v.newSaddr, v.newDport, v.newSport, self.proto)
    case Dnat | NaptIn =>
      Tuple(v.newDaddr, self.saddr, v.newDport, self.sport, self.proto)
    case Snat | NaptOut =>
      Tuple(self.daddr, v.newSaddr, self.dport, v.newSport, self.proto)
  }

  function OppositeScope(vpcs: SubnetVpcs, self: CtKey, v: CtVal): Scope {
    match v.action
    case NaptOut | SvcNaptOut => HOST_SCOPE
    case NaptIn | SvcNaptIn | SharedOut | SharedIn =>
      if v.nextSubnet in vpcs then vpcs[v.nextSubnet] else self.scope
    case Dnat | Snat => self.scope
  }

  /** The key of the entry that holds the other direction of the flow. */
  function OppositeKey(vpcs: SubnetVpcs, self: CtKey, v: CtVal): CtKey {
    CtKey(OppositeScope(vpcs, self, v), OppositeTuple(self.t, v))
  }

  // ---- The table -----------------------------------------------------------

  /** Room for one more write at `k`: a full table still accepts an overwrite. */
  predicate HasRoom(m: Entries, capacity: nat, k: CtKey) {
    k in m || |m| < capacity
  }

  /** The table after an overwriting write, which fails silently when there is no room. */
  function Upserted(m: Entries, capacity: nat, k: CtKey, v: CtVal): Entries {
    if HasRoom(m, capacity, k) then m[k := v] else m
  }

  function Touched(m: Entries, k: CtKey, now: nat): Entries
    requires k in m
  {
    m[k := m[k].(lastSeen := now)]
  }

  /** The table after the entry at `self` observed one TCP packet. */
  function Observed(vpcs: SubnetVpcs, m: Entries, self: CtKey, flags: set<TcpFlag>): Entries
    requires self in m
  {
    var v := m[self];
    var next := DeriveNextState(v.state, flags);
    if next != Closed then m[self := v.(flagsSeen := v.flagsSeen + flags, state := next)]
    else m - {OppositeKey(vpcs, self, v), self}
  }

  /** The table after a handler looked `self` up and, for TCP only, showed it the packet. */
  function ObservedIfTcp(vpcs: SubnetVpcs, m: Entries, self: CtKey, flags: set<TcpFlag>): Entries {
    if self.t.proto == Tcp && self in m then Observed(vpcs, m, self, flags) else m
  }

  /** ct_map: a hash table with a fixed number of slots. */
  class CtTable {
    var entries: Entries
    const capacity: nat

    constructor (capacity: nat)
      ensures entries == map[] && this.capacity == capacity
    {
      this.capacity := capacity;
      entries := map[];
    }

    /** A write that claims an unused key and never overwrites. */
    method Insert(k: CtKey, v: CtVal) returns (ok: bool)
      modifies this
      ensures ok <==> k !in old(entries) && |old(entries)| < capacity
      ensures entries == if ok then old(entries)[k := v] else old(entries)
    {
      ok := k !in entries && |entries| < capacity;
      if ok {
        entries := entries[k := v];
      }
    }

    /** A write that overwrites; it fails only for a new key in a full table. */
    method Upsert(k: CtKey, v: CtVal) returns (ok: bool)
      modifies this
      ensures ok <==> HasRoom(old(entries), capacity, k)
      ensures entries == Upserted(old(entries), capacity, k, v)
    {
      ok := k in entries || |entries| < capacity;
      if ok {
        entries := entries[k := v];
      }
    }

    method Delete(k: CtKey)
      modifies this
      ensures entries == old(entries) - {k}
    {
      entries := entries - {k};
    }

    method Touch(k: CtKey, now: nat)
      requires k in entries
      modifies this
      ensures entries == Touched(old(entries), k, now)
    {
      entries := entries[k := entries[k].(lastSeen := now)];
    }

    /** Records the flags, advances the state, and on Closed removes both directions. */
    method ObserveTcp(vpcs: SubnetVpcs, self: CtKey, flags: set<TcpFlag>)
      requires self in entries
      modifies this
      ensures entries == Observed(vpcs, old(entries), self, flags)
    {
      var v := entries[self];
      v := v.(flagsSeen := v.flagsSeen + flags);
      var next := DeriveNextState(v.state, flags);
      v := v.(state := next);
      entries := entries[self := v];
      if next != Closed {
        return;
      }
      var opp := OppositeKey(vpcs, self, v);
      Delete(opp);
      Delete(self);
      assert entries == old(entries) - {opp, self};
    }

    /** The lookup-then-observe tail of every handler. */
    method ObservePacket(vpcs: SubnetVpcs, self: CtKey, flags: set<TcpFlag>)
      modifies this
      ensures entries == ObservedIfTcp(vpcs, old(entries), self, flags)
    {
      if self.t.proto == Tcp && self in entries {
        ObserveTcp(vpcs, self, flags);
      }
    }
  }
}
