/** src/userspace/port.c: the port table and the linked message queues, updated in place. A
    pointer is a number, 0 is the null pointer, and a struct is the value a map has for it. */
module Ports {
  import opened Lists
  import opened Outcomes
  import opened ByteMemory
  import opened PortRuns
  import Tokens

  const TABLE_SIZE: nat := 1024

  datatype Port = Port(token: Tokens.Word, head: nat, tail: nat)
  datatype Node = Node(data: Msg, next: nat)

  type PortMap = map<nat, Port>
  type NodeMap = map<nat, Node>

  // ----- linked queues -----

  ghost predicate LinkOk(nodes: NodeMap, c: seq<nat>, i: nat)
    requires i < |c|
  {
    c[i] != 0 && c[i] in nodes && nodes[c[i]].next == if i + 1 < |c| then c[i + 1] else 0
  }

  function First(c: seq<nat>): nat {
    if c == [] then 0 else c[0]
  }

  function Last(c: seq<nat>): nat {
    if c == [] then 0 else c[|c| - 1]
  }

  /** Head and tail are null together, and the tail is the last node reached from the head. */
  ghost predicate ChainOk(nodes: NodeMap, p: Port, c: seq<nat>) {
    && p.head == First(c) && p.tail == Last(c) && Distinct(c)
    && forall i :: 0 <= i < |c| ==> LinkOk(nodes, c, i)
  }

  ghost predicate Carries(nodes: NodeMap, c: seq<nat>, q: seq<Msg>) {
    |q| == |c| && forall i :: 0 <= i < |c| ==> c[i] in nodes && nodes[c[i]].data == q[i]
  }

  ghost predicate At(home: map<nat, nat>, c: seq<nat>, p: nat) {
    forall n :: n in c ==> n in home && home[n] == p
  }

  datatype PortState = PortState(ports: PortMap, nodes: NodeMap, chains: map<nat, seq<nat>>, home: map<nat, nat>, named: map<Tokens.Word, nat>)

  /** Port `p` is the one its token names, and its queue is in place; the queue belongs to it alone. */
  ghost predicate Stands(s: PortState, q: Queues, p: nat)
    requires p in s.ports
  {
    var t := s.ports[p].token;
    && p != 0 && p in s.chains && t in s.named && s.named[t] == p && t in q
    && ChainOk(s.nodes, s.ports[p], s.chains[p]) && Carries(s.nodes, s.chains[p], q[t]) && At(s.home, s.chains[p], p)
  }

  ghost predicate PortOk(s: PortState, q: Queues, p: nat) {
    p in s.ports ==> Stands(s, q, p)
  }

  ghost predicate NameOk(s: PortState, q: Queues, t: Tokens.Word) {
    t in q ==> t in s.named && s.named[t] in s.ports && s.ports[s.named[t]].token == t
  }

  /** Every message there is hangs in the queue of a port. */
  ghost predicate Hangs(s: PortState, n: nat) {
    n in s.nodes ==> n in s.home && s.home[n] in s.ports && s.home[n] in s.chains && n in s.chains[s.home[n]]
  }

  ghost predicate Good(s: PortState, q: Queues) {
    && (forall p: nat :: PortOk(s, q, p)) && (forall t: Tokens.Word :: NameOk(s, q, t))
    && (forall n: nat :: Hangs(s, n))
  }

  // ----- edits -----

  ghost predicate NodeKept(s: PortState, s': PortState, n: nat) {
    && n in s.nodes && n in s'.nodes && s'.nodes[n] == s.nodes[n]
    && n in s.home && n in s'.home && s'.home[n] == s.home[n]
  }

  /** Nodes of other ports are as they were. */
  lemma OtherPort(s: PortState, q: Queues, p: nat, o: nat, s': PortState, q': Queues)
    requires o in s.ports && PortOk(s, q, o) && o != p
    requires o in s'.ports && s'.ports[o] == s.ports[o] && o in s'.chains && s'.chains[o] == s.chains[o]
    requires s.ports[o].token in s'.named && s'.named[s.ports[o].token] == o
    requires s.ports[o].token in q' && q'[s.ports[o].token] == q[s.ports[o].token]
    requires forall n :: n in s.chains[o] ==> NodeKept(s, s', n)
    ensures PortOk(s', q', o)
  {
    var c := s.chains[o];
    forall i | 0 <= i < |c| ensures LinkOk(s'.nodes, c, i) && s'.nodes[c[i]] == s.nodes[c[i]] {
      assert LinkOk(s.nodes, c, i) && NodeKept(s, s', c[i]);
    }
    forall n | n in c ensures n in s'.home && s'.home[n] == o {
      assert NodeKept(s, s', n);
    }
  }

  /** The nodes after `port_forward` has linked `n` behind `tail`. */
  function Appended(nodes: NodeMap, tail: nat, n: nat, m: Msg): NodeMap {
    var more := nodes[n := Node(m, 0)];
    if tail == 0 || tail !in nodes then more else more[tail := nodes[tail].(next := n)]
  }

  lemma ChainAppend(nodes: NodeMap, p: Port, c: seq<nat>, q: seq<Msg>, n: nat, m: Msg)
    requires ChainOk(nodes, p, c) && Carries(nodes, c, q) && n != 0 && n !in nodes
    ensures ChainOk(Appended(nodes, p.tail, n, m), Port(p.token, if p.tail == 0 then n else p.head, n), c + [n])
    ensures Carries(Appended(nodes, p.tail, n, m), c + [n], q + [m])
  {
    var nodes', c' := Appended(nodes, p.tail, n, m), c + [n];
    forall i | 0 <= i < |c| ensures c[i] != n && c[i] != 0 && c[i] in nodes {
      assert LinkOk(nodes, c, i);
    }
    forall i | 0 <= i < |c'| ensures LinkOk(nodes', c', i) {
      assert i < |c| ==> LinkOk(nodes, c, i);
    }
  }

  function Linked(s: PortState, p: nat, n: nat, m: Msg): PortState
    requires p in s.ports && p in s.chains
  {
    var port := s.ports[p];
    PortState(s.ports[p := Port(port.token, if port.tail == 0 then n else port.head, n)],
              Appended(s.nodes, port.tail, n, m), s.chains[p := s.chains[p] + [n]], s.home[n := p], s.named)
  }

  lemma LinkedGood(s: PortState, q: Queues, p: nat, n: nat, m: Msg)
    requires Good(s, q) && p in s.ports && n != 0 && n !in s.nodes
    ensures PortOk(s, q, p) && p in s.chains && s.ports[p].token in q && Good(Linked(s, p, n, m), q[s.ports[p].token := q[s.ports[p].token] + [m]])
  {
    var t := s.ports[p].token;
    assert PortOk(s, q, p);
    var s', q' := Linked(s, p, n, m), q[t := q[t] + [m]];
    forall o: nat ensures PortOk(s', q', o) {
      assert PortOk(s, q, o);
      if o == p {
        ChainAppend(s.nodes, s.ports[p], s.chains[p], q[t], n, m);
      } else if o in s.ports {
        TailHome(s, q, p);
        forall x | x in s.chains[o] ensures NodeKept(s, s', x) {
          InChain(s, q, o, x);
        }
        OtherPort(s, q, p, o, s', q');
      }
    }
    forall u: Tokens.Word ensures NameOk(s', q', u) {
      assert NameOk(s, q, u);
    }
    forall x: nat ensures Hangs(s', x) {
      assert Hangs(s, x);
      TailHome(s, q, p);
      if x in s.nodes && s.home[x] == p {
        assert x in s.chains[p] + [n];
      }
    }
  }

  lemma TailHome(s: PortState, q: Queues, p: nat)
    requires p in s.ports && PortOk(s, q, p)
    ensures s.ports[p].tail != 0 ==> s.ports[p].tail in s.home && s.home[s.ports[p].tail] == p
  {}

  lemma InChain(s: PortState, q: Queues, o: nat, n: nat)
    requires o in s.ports && PortOk(s, q, o) && n in s.chains[o]
    ensures n in s.nodes && n != 0 && n in s.home && s.home[n] == o
  {
    var i :| 0 <= i < |s.chains[o]| && s.chains[o][i] == n;
    assert LinkOk(s.nodes, s.chains[o], i);
  }

  /** The queue without its first message, as `port_receive` leaves it. */
  function Shifted(s: PortState, p: nat): PortState
    requires p in s.ports && p in s.chains && s.chains[p] != [] && s.ports[p].head in s.nodes
  {
    var port := s.ports[p];
    var next := s.nodes[port.head].next;
    PortState(s.ports[p := Port(port.token, next, if next == 0 then 0 else port.tail)],
              s.nodes - {port.head}, s.chains[p := s.chains[p][1..]], s.home, s.named)
  }

  lemma ChainShift(nodes: NodeMap, p: Port, c: seq<nat>, q: seq<Msg>)
    requires ChainOk(nodes, p, c) && Carries(nodes, c, q) && c != []
    ensures p.head != 0 && p.head in nodes && nodes[p.head].data == q[0]
    ensures
      var next := nodes[p.head].next;
      ChainOk(nodes - {p.head}, Port(p.token, next, if next == 0 then 0 else p.tail), c[1..])
    ensures Carries(nodes - {p.head}, c[1..], q[1..])
  {
    assert LinkOk(nodes, c, 0);
    forall i | 0 <= i < |c| - 1 ensures LinkOk(nodes - {p.head}, c[1..], i) {
      assert LinkOk(nodes, c, i + 1);
    }
    assert |c| > 1 ==> LinkOk(nodes, c, 1);
  }

  lemma ShiftedGood(s: PortState, q: Queues, p: nat)
    requires Good(s, q) && p in s.ports && Stands(s, q, p) && s.chains[p] != []
    ensures s.ports[p].head != 0 && s.ports[p].head in s.nodes && s.nodes[s.ports[p].head].data == q[s.ports[p].token][0]
    ensures Good(Shifted(s, p), q[s.ports[p].token := q[s.ports[p].token][1..]])
  {
    var t := s.ports[p].token;
    ChainShift(s.nodes, s.ports[p], s.chains[p], q[t]);
    var s', q' := Shifted(s, p), q[t := q[t][1..]];
    forall o: nat ensures PortOk(s', q', o) {
      assert PortOk(s, q, o);
      if o in s.ports && o != p {
        InChain(s, q, p, s.ports[p].head);
        forall x | x in s.chains[o] ensures NodeKept(s, s', x) {
          InChain(s, q, o, x);
        }
        OtherPort(s, q, p, o, s', q');
      }
    }
    forall u: Tokens.Word ensures NameOk(s', q', u) {
      assert NameOk(s, q, u);
    }
    forall x: nat ensures Hangs(s', x) {
      assert Hangs(s, x);
      if x in s'.nodes && s.home[x] == p {
        InTail(s.chains[p], x);
      }
    }
  }

  lemma InTail(c: seq<nat>, x: nat)
    requires c != [] && x in c && x != c[0]
    ensures x in c[1..]
  {
    var i :| 0 <= i < |c| && c[i] == x;
    assert c[1..][i - 1] == x;
  }

  function Added(s: PortState, p: nat, t: Tokens.Word): PortState {
    PortState(s.ports[p := Port(t, 0, 0)], s.nodes, s.chains[p := []], s.home, s.named[t := p])
  }

  lemma AddedGood(s: PortState, q: Queues, p: nat, t: Tokens.Word)
    requires Good(s, q) && p != 0 && p !in s.ports && t !in q
    ensures Good(Added(s, p, t), q[t := []])
  {
    var s', q' := Added(s, p, t), q[t := []];
    forall o: nat ensures PortOk(s', q', o) {
      if o in s.ports {
        assert PortOk(s, q, o);
        forall x | x in s.chains[o] ensures NodeKept(s, s', x) {
          InChain(s, q, o, x);
        }
        OtherPort(s, q, p, o, s', q');
      }
    }
    forall u: Tokens.Word ensures NameOk(s', q', u) {
      assert NameOk(s, q, u);
    }
    forall x: nat ensures Hangs(s', x) {
      assert Hangs(s, x);
    }
  }

  /** The port and its nodes are gone. */
  function Removed(s: PortState, p: nat): PortState
    requires p in s.ports && p in s.chains
  {
    PortState(s.ports - {p}, s.nodes - (set n | n in s.chains[p]), s.chains - {p}, s.home, s.named - {s.ports[p].token})
  }

  lemma RemovedGood(s: PortState, q: Queues, p: nat)
    requires Good(s, q) && p in s.ports
    ensures PortOk(s, q, p) && p in s.chains && s.ports[p].token in q && Good(Removed(s, p), q - {s.ports[p].token})
  {
    assert PortOk(s, q, p);
    var t := s.ports[p].token;
    var s', q' := Removed(s, p), q - {t};
    forall o: nat ensures PortOk(s', q', o) {
      assert PortOk(s, q, o);
      if o in s'.ports {
        forall x | x in s.chains[o] ensures NodeKept(s, s', x) {
          InChain(s, q, o, x);
          assert x !in s.chains[p];
        }
        OtherPort(s, q, p, o, s', q');
      }
    }
    forall u: Tokens.Word ensures NameOk(s', q', u) {
      assert NameOk(s, q, u);
    }
    forall x: nat ensures Hangs(s', x) {
      assert Hangs(s, x);
    }
  }

  // ----- the table -----

  /** Every port has one slot, and every used slot holds a port. */
  ghost predicate Slotted(table: seq<nat>, ports: set<nat>, slots: map<nat, nat>) {
    (forall p: nat :: HasSlot(table, ports, slots, p)) && (forall i: nat :: HoldsPort(table, ports, slots, i))
  }

  ghost predicate HasSlot(table: seq<nat>, ports: set<nat>, slots: map<nat, nat>, p: nat) {
    p in ports ==> p in slots && slots[p] < |table| && table[slots[p]] == p
  }

  ghost predicate HoldsPort(table: seq<nat>, ports: set<nat>, slots: map<nat, nat>, i: nat) {
    i < |table| && table[i] != 0 ==> table[i] in ports && table[i] in slots && slots[table[i]] == i
  }

  lemma SlotAdd(table: seq<nat>, ports: set<nat>, slots: map<nat, nat>, p: nat)
    requires Slotted(table, ports, slots) && p !in ports
    ensures Slotted(table + [p], ports + {p}, slots[p := |table|])
  {
    var table', ports', slots' := table + [p], ports + {p}, slots[p := |table|];
    forall q: nat ensures HasSlot(table', ports', slots', q) {
      assert HasSlot(table, ports, slots, q);
    }
    forall i: nat ensures HoldsPort(table', ports', slots', i) {
      assert HoldsPort(table, ports, slots, i);
    }
  }

  /** The tokens given out are those of the counter readings taken. */
  ghost predicate Issues(readings: set<Tokens.Word>, issued: set<Tokens.Word>) {
    issued == set r | r in readings :: Tokens.Mix(r)
  }

  /** A reading of the counter that was not taken before gives a token that was not given before,
      and only the reading 0 gives the token 0. */
  lemma FreshToken(readings: set<Tokens.Word>, issued: set<Tokens.Word>, reading: Tokens.Word)
    requires Issues(readings, issued) && reading !in readings
    ensures Tokens.Mix(reading) !in issued && Issues(readings + {reading}, issued + {Tokens.Mix(reading)})
    ensures Tokens.Mix(reading) == 0 <==> reading == 0
  {
    Tokens.MixInjective(reading, reading);
    forall r | r in readings ensures Tokens.Mix(r) != Tokens.Mix(reading) {
      Tokens.MixInjective(r, reading);
    }
    forall t | t in issued + {Tokens.Mix(reading)} ensures t in set r | r in readings + {reading} :: Tokens.Mix(r) {
      if t in issued {
        var r :| r in readings && Tokens.Mix(r) == t;
        assert r in readings + {reading};
      } else {
        assert reading in readings + {reading};
      }
    }
  }

  /** An open token has a slot. */
  lemma TokenSlot(s: PortState, q: Queues, table: seq<nat>, slots: map<nat, nat>, t: Tokens.Word) returns (i: nat)
    requires Good(s, q) && Slotted(table, s.ports.Keys, slots) && t in q
    ensures i < |table| && table[i] != 0 && table[i] in s.ports && s.ports[table[i]].token == t
  {
    assert NameOk(s, q, t);
    assert PortOk(s, q, s.named[t]) && HasSlot(table, s.ports.Keys, slots, s.named[t]);
    i := slots[s.named[t]];
  }

  lemma TailThere(s: PortState, q: Queues, p: nat)
    requires Good(s, q) && p in s.ports
    ensures PortOk(s, q, p) && Stands(s, q, p) && (s.ports[p].tail != 0 ==> s.ports[p].tail in s.nodes)
  {
    assert PortOk(s, q, p);
    if s.ports[p].tail != 0 {
      InChain(s, q, p, s.ports[p].tail);
    }
  }

  lemma HeadThere(s: PortState, q: Queues, p: nat)
    requires Good(s, q) && p in s.ports
    ensures Stands(s, q, p)
    ensures s.ports[p].head == 0 <==> q[s.ports[p].token] == []
    ensures s.ports[p].head == 0 <==> s.chains[p] == []
  {
    assert PortOk(s, q, p);
    if s.chains[p] != [] {
      InChain(s, q, p, s.chains[p][0]);
    }
  }

  ghost predicate Appends(q: Queues, t: Tokens.Word, m: Msg, q': Queues) {
    t in q && q' == q[t := q[t] + [m]]
  }

  ghost predicate Drops(q: Queues, t: Tokens.Word, m: Msg, q': Queues) {
    t in q && q[t] != [] && m == q[t][0] && q' == q[t := q[t][1..]]
  }

  lemma SlotDrop(table: seq<nat>, ports: set<nat>, slots: map<nat, nat>, p: nat)
    requires Slotted(table, ports, slots) && p in ports && p != 0
    ensures HasSlot(table, ports, slots, p) && Slotted(table[slots[p] := 0], ports - {p}, slots)
  {
    assert HasSlot(table, ports, slots, p);
    var table', ports' := table[slots[p] := 0], ports - {p};
    forall q: nat ensures HasSlot(table', ports', slots, q) {
      assert HasSlot(table, ports, slots, q);
    }
    forall i: nat ensures HoldsPort(table', ports', slots, i) {
      assert HoldsPort(table, ports, slots, i);
    }
  }

  datatype Receipt = NoPort | WouldBlock | Got(out: Msg)

  class PortTable {
    const table: array<nat>
    var count: nat
    var ports: PortMap
    var nodes: NodeMap
    ghost var book: PortState
    ghost var slots: map<nat, nat>
    ghost var readings: set<Tokens.Word> // every counter reading a token was made from
    ghost var issued: set<Tokens.Word>   // every token ever given out
    ghost var queues: Queues

    /** The ghost record is the real state, and it is good. */
    ghost predicate Tied()
      reads this
    {
      book.ports == ports && book.nodes == nodes && Good(book, queues)
    }

    ghost predicate Valid()
      reads this, table
    {
      && table.Length == TABLE_SIZE && count <= TABLE_SIZE
      && Tied() && Slotted(table[..count], ports.Keys, slots) && queues.Keys <= issued && Issues(readings, issued)
    }

    constructor ()
      ensures Valid() && fresh(table) && count == 0 && queues == map[] && readings == {} && issued == {}
    {
      table := new nat[TABLE_SIZE](i => 0);
      count := 0;
      ports, nodes, slots, queues := map[], map[], map[], map[];
      book := PortState(map[], map[], map[], map[], map[]);
      readings, issued := {}, {};
    }

    /** No message is lost or left behind: the structs there are, are those in the queues. */
    lemma NoLeak(n: nat)
      requires Valid()
      ensures n in nodes <==> exists p :: p in ports && p in book.chains && n in book.chains[p]
    {
      assert Hangs(book, n);
      forall p | p in ports && p in book.chains && n in book.chains[p] ensures n in nodes {
        assert PortOk(book, queues, p);
        InChain(book, queues, p, n);
      }
    }

    /** `port_create`: `port` is the address of the new struct. */
    method Create(reading: Tokens.Word, port: nat) returns (token: Tokens.Word)
      requires Valid() && count < 1024 && reading !in readings && port != 0 && port !in ports
      modifies this, table
      ensures Valid() && count == old(count) + 1 && readings == old(readings) + {reading} && issued == old(issued) + {token}
      ensures token == Tokens.Mix(reading) && Step(old(queues), Open(token), queues)
      ensures token !in old(issued) && (token == 0 <==> reading == 0)
    {
      token := Tokens.Mix(reading);
      FreshToken(readings, issued, reading);
      AddPort(token, port);
      readings, issued := readings + {reading}, issued + {token};
    }

    /** The new struct, and its slot at the end of the table. */
    method AddPort(token: Tokens.Word, port: nat)
      requires table.Length == TABLE_SIZE && count < TABLE_SIZE && Tied() && Slotted(table[..count], ports.Keys, slots)
      requires token !in queues && port != 0 && port !in ports
      modifies this`count, this`ports, this`book, this`slots, this`queues, table
      ensures count == old(count) + 1 && Tied() && Slotted(table[..count], ports.Keys, slots)
      ensures queues == old(queues)[token := []]
    {
      AddedGood(book, queues, port, token);
      SlotAdd(table[..count], ports.Keys, slots, port);
      ports := ports[port := Port(token, 0, 0)];
      table[count] := port;
      slots := slots[port := count];
      count := count + 1;
      assert table[..count] == old(table[..count]) + [port] && ports.Keys == old(ports.Keys) + {port};
      book := Added(book, port, token);
      queues := queues[token := []];
    }

    /** `port_lookup`: the port of a token that is open, and nothing for any other token. */
    method Lookup(token: Tokens.Word) returns (p: nat)
      requires Valid()
      ensures p != 0 <==> token in queues
      ensures p != 0 ==> p in ports && ports[p].token == token
    {
      var i := 0;
      while i < count
        invariant 0 <= i <= count
        invariant forall j :: 0 <= j < i && table[j] != 0 && table[j] in ports ==> ports[table[j]].token != token
      {
        assert table[..count][i] == table[i] && HoldsPort(table[..count], ports.Keys, slots, i);
        if table[i] != 0 && ports[table[i]].token == token {
          assert PortOk(book, queues, table[i]);
          return table[i];
        }
        i := i + 1;
      }
      p := 0;
      if token in queues {
        ghost var at := TokenSlot(book, queues, table[..count], slots, token);
      }
    }

    /** `port_forward`: `node` is the address of the new message. */
    method Forward(token: Tokens.Word, msg: Msg, node: nat) returns (sent: Option<nat>)
      requires Valid() && node != 0 && node !in nodes
      modifies this`ports, this`nodes, this`book, this`queues
      ensures Valid() && Step(old(queues), Event.Forward(token, msg), queues)
      ensures sent == if token in old(queues) then Some(|msg|) else None
    {
      var p := Lookup(token);
      if p == 0 {
        return None;
      }
      Enqueue(p, msg, node);
      sent := Some(|msg|);
    }

    /** The new message goes behind the tail. */
    method Enqueue(p: nat, msg: Msg, node: nat)
      requires Tied() && p in ports && node != 0 && node !in nodes
      modifies this`ports, this`nodes, this`book, this`queues
      ensures Tied() && ports.Keys == old(ports.Keys)
      ensures Appends(old(queues), old(ports)[p].token, msg, queues)
    {
      var port := ports[p];
      TailThere(book, queues, p);
      LinkedGood(book, queues, p, node, msg);
      book := Linked(book, p, node, msg);
      queues := queues[port.token := queues[port.token] + [msg]];
      nodes := nodes[node := Node(msg, 0)];
      if port.tail == 0 {
        ports := ports[p := port.(head := node, tail := node)];
      } else {
        nodes := nodes[port.tail := nodes[port.tail].(next := node)];
        ports := ports[p := port.(tail := node)];
      }
    }

    /** `port_receive`, as one step: a receive on an empty queue waits. */
    method Receive(token: Tokens.Word, room: nat) returns (r: Receipt)
      requires Valid()
      modifies this`ports, this`nodes, this`book, this`queues
      ensures Valid()
      ensures r.NoPort? <==> token !in old(queues)
      ensures r.WouldBlock? <==> token in old(queues) && old(queues)[token] == []
      ensures r.Got? ==> Step(old(queues), Event.Receive(token, room, r.out), queues)
      ensures r.Got? ==>
        var m := old(queues)[token][0];
        |r.out| == (if |m| < room then |m| else room) && r.out == m[..|r.out|]
      ensures !r.Got? ==> queues == old(queues)
    {
      var p := Lookup(token);
      if p == 0 {
        return NoPort;
      }
      var empty := IsEmpty(p);
      if empty {
        return WouldBlock;
      }
      var data := Dequeue(p);
      r := Got(if |data| < room then data else data[..room]);
    }

    method IsEmpty(p: nat) returns (empty: bool)
      requires Tied() && p in ports
      ensures empty <==> ports[p].head == 0
      ensures ports[p].token in queues && (empty <==> queues[ports[p].token] == [])
    {
      HeadThere(book, queues, p);
      empty := ports[p].head == 0;
    }

    /** The first message leaves the queue. */
    method Dequeue(p: nat) returns (data: Msg)
      requires Tied() && p in ports && ports[p].head != 0
      modifies this`ports, this`nodes, this`book, this`queues
      ensures Tied() && ports.Keys == old(ports.Keys)
      ensures Drops(old(queues), old(ports)[p].token, data, queues)
    {
      var port := ports[p];
      HeadThere(book, queues, p);
      ShiftedGood(book, queues, p);
      var node := nodes[port.head];
      data := node.data;
      book := Shifted(book, p);
      queues := queues[port.token := queues[port.token][1..]];
      nodes := nodes - {port.head};
      ports := ports[p := Port(port.token, node.next, if node.next == 0 then 0 else port.tail)];
    }

    /** `port_destroy`. */
    method Destroy(p: nat)
      requires Valid() && p in ports
      modifies this`ports, this`nodes, this`book, this`queues, this`slots, table
      ensures Valid() && Step(old(queues), Close(old(ports)[p].token), queues) && count == old(count)
    {
      TailThere(book, queues, p);
      FreeNodes(p);
      ClearSlot(p);
      FreePort(p);
    }

    /** And the struct itself. */
    method FreePort(p: nat)
      requires book.ports == ports && p in ports && p in book.chains && nodes == book.nodes - set n | n in book.chains[p]
      requires Good(book, queues)
      modifies this`ports, this`book, this`queues
      ensures Tied() && ports.Keys == old(ports.Keys) - {p} && queues == old(queues) - {old(ports)[p].token}
    {
      RemovedGood(book, queues, p);
      queues := queues - {ports[p].token};
      book := Removed(book, p);
      ports := ports - {p};
    }

    /** Its first loop: the messages go. */
    method FreeNodes(p: nat)
      requires Tied() && p in ports && Stands(book, queues, p)
      modifies this`nodes
      ensures nodes == book.nodes - set n | n in book.chains[p]
    {
      ghost var c, i := book.chains[p], 0;
      var node := ports[p].head;
      assert c != [] ==> LinkOk(book.nodes, c, 0);
      while node != 0
        invariant 0 <= i <= |c| && node == (if i < |c| then c[i] else 0) && nodes == book.nodes - set n | n in c[..i]
        invariant i < |c| ==> c[i] != 0
        decreases |c| - i
      {
        assert LinkOk(book.nodes, c, i) && c[..i + 1] == c[..i] + [c[i]];
        assert i + 1 < |c| ==> LinkOk(book.nodes, c, i + 1);
        assert c[i] !in c[..i];
        var next := nodes[node].next;
        nodes := nodes - {node};
        node := next;
        i := i + 1;
      }
      assert c[..i] == c;
    }

    /** Its second loop: the slot is cleared. */
    method ClearSlot(p: nat)
      requires table.Length == TABLE_SIZE && count <= TABLE_SIZE && p != 0
      requires Slotted(table[..count], ports.Keys, slots) && p in ports
      modifies table, this`slots
      ensures Slotted(table[..count], ports.Keys - {p}, slots)
    {
      assert HasSlot(table[..count], ports.Keys, slots, p);
      var i := 0;
      while i < count
        invariant 0 <= i <= count && i <= slots[p]
      {
        assert table[..count][slots[p]] == p;
        if table[i] == p {
          assert HoldsPort(table[..count], ports.Keys, slots, i);
          SlotDrop(table[..count], ports.Keys, slots, p);
          table[i] := 0;
          assert table[..count] == old(table[..count])[slots[p] := 0];
          return;
        }
        i := i + 1;
      }
    }
  }
}
