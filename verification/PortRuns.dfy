/** Message ports seen from outside, src/userspace/port.c: the queue of each token, and what runs
    of forwards and receives deliver. */
module PortRuns {
  import opened ByteMemory
  import opened Tokens

  type Msg = seq<byte>
  type Queues = map<Word, seq<Msg>>

  datatype Event =
    | Open(t: Word)
    | Close(t: Word)
    | Forward(t: Word, msg: Msg)
    | Receive(t: Word, room: nat, out: Msg)

  /** What a receive delivers into a buffer of `room` bytes: as much of the front of the message as
      fits. */
  ghost predicate FrontOf(out: Msg, m: Msg, room: nat) {
    |out| == (if |m| < room then |m| else room) && out == m[..|out|]
  }

  ghost predicate Step(q: Queues, e: Event, q': Queues) {
    match e
    case Open(t) => t !in q && q' == q[t := []]
    case Close(t) => t in q && q' == q - {t}
    case Forward(t, m) => q' == if t in q then q[t := q[t] + [m]] else q
    case Receive(t, room, out) => t in q && q[t] != [] && FrontOf(out, q[t][0], room) && q' == q[t := q[t][1..]]
  }

  ghost predicate IsRun(qs: seq<Queues>, es: seq<Event>) {
    |qs| == |es| + 1 && forall i :: 0 <= i < |es| ==> Step(qs[i], es[i], qs[i + 1])
  }

  /** The port keeps existing. */
  ghost predicate StaysOpen(es: seq<Event>, t: Word) {
    forall i :: 0 <= i < |es| ==> es[i] != Open(t) && es[i] != Close(t)
  }

  /** Messages forwarded to the token, in order. */
  function Sent(es: seq<Event>, t: Word): seq<Msg> {
    if es == [] then []
    else
      var e := es[|es| - 1];
      Sent(es[..|es| - 1], t) + if e.Forward? && e.t == t then [e.msg] else []
  }

  /** What the receives on the token delivered, in order, and the room each had. */
  function Delivered(es: seq<Event>, t: Word): seq<Msg> {
    if es == [] then []
    else
      var e := es[|es| - 1];
      Delivered(es[..|es| - 1], t) + if e.Receive? && e.t == t then [e.out] else []
  }

  function Rooms(es: seq<Event>, t: Word): (r: seq<nat>)
    ensures |r| == |Delivered(es, t)|
  {
    if es == [] then []
    else
      var e := es[|es| - 1];
      Rooms(es[..|es| - 1], t) + if e.Receive? && e.t == t then [e.room] else []
  }

  /** Receive `k` delivered the front of message `k`, as much as its buffer had room for. */
  ghost predicate CutOf(all: seq<Msg>, es: seq<Event>, t: Word, k: nat)
    requires k < |Delivered(es, t)| && k < |all|
  {
    var out, m, room := Delivered(es, t)[k], all[k], Rooms(es, t)[k];
    |out| <= |m| && |out| <= room && (|out| == |m| || |out| == room) && forall j :: 0 <= j < |out| ==> out[j] == m[j]
  }

  /** What was queued at first and sent since is what was received followed by what is queued now,
      in order; each receive delivered its message cut to its room. */
  ghost predicate Delivers(start: seq<Msg>, es: seq<Event>, t: Word, left: seq<Msg>) {
    var all, n := start + Sent(es, t), |Delivered(es, t)|;
    && n <= |all| && left == all[n..]
    && forall k :: 0 <= k < n ==> CutOf(all, es, t, k)
  }

  lemma OneMore(start: seq<Msg>, es: seq<Event>, e: Event, t: Word, q: Queues, q': Queues)
    requires t in q && Delivers(start, es, t, q[t]) && Step(q, e, q') && e != Open(t) && e != Close(t)
    ensures t in q' && Delivers(start, es + [e], t, q'[t])
  {
    var es', was, n := es + [e], start + Sent(es, t), |Delivered(es, t)|;
    assert es'[..|es|] == es;
    var all := start + Sent(es', t);
    assert all == was + if e.Forward? && e.t == t then [e.msg] else [];
    forall k | 0 <= k < |Delivered(es', t)| ensures k < |all| && CutOf(all, es', t, k) {
      if k < n {
        assert CutOf(was, es, t, k);
      }
    }
  }

  /** In every run that keeps a port open. */
  lemma {:induction false} Fifo(qs: seq<Queues>, es: seq<Event>, t: Word)
    requires IsRun(qs, es) && t in qs[0] && StaysOpen(es, t)
    ensures t in qs[|es|] && Delivers(qs[0][t], es, t, qs[|es|][t])
  {
    if es != [] {
      var n := |es| - 1;
      Fifo(qs[..|es|], es[..n], t);
      assert Step(qs[n], es[n], qs[n + 1]);
      OneMore(qs[0][t], es[..n], es[n], t, qs[n], qs[n + 1]);
      assert es[..n] + [es[n]] == es;
    } else {
      assert qs[0][t] + Sent(es, t) == qs[0][t];
    }
  }
}
