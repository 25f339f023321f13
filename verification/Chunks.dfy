/**
 One message over a channel that loses, repeats and reorders packets: send_chunks and
 receive_chunks of networks/messaging_via_chunks (client and server have the same code).
 */
module Chunks {
  import opened Basics

  const CHUNK: nat := 8
  const MAX_CHUNKS: nat := 10
  const MAX_RETRIES: nat := 100
  const BUFFER: nat := 80

  const NUL: char := '\0'

  // --- what is sent ---

  function Total(m: string): nat { (|m| + CHUNK - 1) / CHUNK }

  // strncpy of at most CHUNK characters: the rest is filled with NULs.
  function Padded(s: string): (r: string)
    requires |s| <= CHUNK
    ensures |r| == CHUNK
  {
    seq(CHUNK, i requires 0 <= i < CHUNK => if i < |s| then s[i] else NUL)
  }

  datatype Packet = Packet(id: nat, total: nat, data: string)

  // Chunk i of the message, in the packet with number i + 1.
  function Chunk(m: string, i: nat): Packet
    requires i < Total(m)
  {
    Packet(i + 1, Total(m), Padded(m[i * CHUNK..Min(|m|, i * CHUNK + CHUNK)]))
  }

  ghost predicate FromMessage(m: string, p: Packet) {
    1 <= p.id <= Total(m) && p == Chunk(m, p.id - 1)
  }

  // --- the receiver ---

  // total is -1 before the first packet; got tells which packets were stored.
  datatype Receiver = Receiver(total: int, got: seq<bool>, count: nat, buf: string)

  ghost predicate Shape(r: Receiver) { |r.got| == MAX_CHUNKS + 1 && |r.buf| == BUFFER }

  function Start(buf: string): Receiver { Receiver(-1, seq(MAX_CHUNKS + 1, _ => false), 0, buf) }

  predicate Waiting(r: Receiver) { r.total == -1 || r.count < r.total }

  function Store(buf: string, i: nat, data: string): string
    requires i * CHUNK + CHUNK <= |buf| && |data| == CHUNK
  {
    buf[..i * CHUNK] + data + buf[i * CHUNK + CHUNK..]
  }

  lemma StoreSlice(buf: string, i: nat, data: string, j: nat)
    requires i * CHUNK + CHUNK <= |buf| && |data| == CHUNK && j * CHUNK + CHUNK <= |buf|
    ensures Store(buf, i, data)[j * CHUNK..(j + 1) * CHUNK] == if j == i then data else buf[j * CHUNK..(j + 1) * CHUNK]
  {
  }

  // One packet arrives.
  function Accept(r: Receiver, p: Packet): Receiver
    requires Shape(r) && 1 <= p.id <= MAX_CHUNKS && |p.data| == CHUNK
  {
    var total := if r.total == -1 then p.total else r.total;
    if r.got[p.id] then r.(total := total)
    else Receiver(total, r.got[p.id := true], r.count + 1, Store(r.buf, p.id - 1, p.data))
  }

  // The number of packets stored so far, and their contents.
  ghost predicate Holds(m: string, r: Receiver) {
    && Shape(r) && (r.total == -1 ==> r.count == 0) && (r.total != -1 ==> r.total == Total(m))
    && (forall k :: 0 <= k <= MAX_CHUNKS && r.got[k] ==> 1 <= k <= Total(m))
    && (forall k :: 1 <= k <= MAX_CHUNKS && r.got[k] ==> r.buf[(k - 1) * CHUNK..k * CHUNK] == Chunk(m, k - 1).data)
    && r.count == Count(r.got, MAX_CHUNKS + 1)
  }

  function Count(got: seq<bool>, n: nat): nat
    requires n <= |got|
  {
    if n == 0 then 0 else Count(got, n - 1) + if got[n - 1] then 1 else 0
  }

  lemma {:induction false} CountSet(got: seq<bool>, k: nat, n: nat)
    requires k < |got| && n <= |got| && !got[k]
    ensures Count(got[k := true], n) == Count(got, n) + if k < n then 1 else 0
    decreases n
  {
    if n > 0 { CountSet(got, k, n - 1); }
  }

  // If as many packets are there as the message has, they all are.
  lemma {:induction false} CountFull(got: seq<bool>, n: nat, t: nat)
    requires n <= |got| && t < n && (forall k :: 0 <= k < n && got[k] ==> 1 <= k <= t)
    ensures Count(got, n) <= t
    ensures Count(got, n) == t ==> forall k :: 1 <= k <= t ==> got[k]
    decreases n
  {
    if t + 1 < n {
      CountFull(got, n - 1, t);
    } else if t > 0 {
      CountBelow(got, t);
    } else {
      CountBelow(got, 0);
    }
  }

  lemma {:induction false} CountBelow(got: seq<bool>, t: nat)
    requires t + 1 <= |got| && (forall k :: 0 <= k <= t && got[k] ==> 1 <= k)
    ensures Count(got, t + 1) <= t && (Count(got, t + 1) == t ==> forall k :: 1 <= k <= t ==> got[k])
    decreases t
  {
    if t > 0 { CountBelow(got, t - 1); } else { assert Count(got, 0) == 0; }
  }

  lemma AcceptHolds(m: string, r: Receiver, p: Packet)
    requires Holds(m, r) && FromMessage(m, p) && Total(m) <= MAX_CHUNKS
    ensures Holds(m, Accept(r, p)) && Accept(r, p).got[p.id] && Accept(r, p).total == Total(m)
    ensures forall k :: 0 <= k <= MAX_CHUNKS && r.got[k] ==> Accept(r, p).got[k]
  {
    var r' := Accept(r, p);
    if !r.got[p.id] {
      CountSet(r.got, p.id, MAX_CHUNKS + 1);
      forall k | 1 <= k <= MAX_CHUNKS && r'.got[k]
        ensures r'.buf[(k - 1) * CHUNK..k * CHUNK] == Chunk(m, k - 1).data
      {
        StoreSlice(r.buf, p.id - 1, p.data, k - 1);
      }
    }
  }

  // The final NUL of a finished receiver goes where the chunks end: inside the buffer exactly
  // for messages of at most 72 characters.
  lemma TerminatorFits(m: string, r: Receiver)
    requires Holds(m, r) && !Waiting(r) && 1 <= |m| <= BUFFER
    ensures r.count == Total(m) && (r.count * CHUNK < BUFFER <==> |m| <= BUFFER - CHUNK)
  {
    CountFull(r.got, MAX_CHUNKS + 1, Total(m));
  }

  // The whole message is in the buffer, followed by NULs up to the end of its last chunk.
  ghost predicate Stored(m: string, r: Receiver) {
    && Shape(r) && !Waiting(r) && r.count == Total(m) && |m| <= r.count * CHUNK <= BUFFER
    && r.buf[..|m|] == m && forall j :: |m| <= j < r.count * CHUNK ==> r.buf[j] == NUL
  }

  // With the final NUL the buffer holds the message, as a C string.
  ghost predicate Delivered(m: string, r: Receiver) {
    && Stored(m, r) && r.count * CHUNK < BUFFER
    && var buf := r.buf[r.count * CHUNK := NUL]; buf[..|m|] == m && buf[|m|] == NUL
  }

  // A receiver that finishes holds the message.
  lemma Received(m: string, r: Receiver)
    requires Holds(m, r) && !Waiting(r) && 1 <= |m| <= BUFFER
    ensures Stored(m, r) && (|m| <= BUFFER - CHUNK ==> Delivered(m, r))
  {
    TerminatorFits(m, r);
    CountFull(r.got, MAX_CHUNKS + 1, Total(m));
    forall j | 0 <= j < r.count * CHUNK ensures r.buf[j] == if j < |m| then m[j] else NUL { CharAt(m, r, j); }
  }

  lemma CharAt(m: string, r: Receiver, j: nat)
    requires Holds(m, r) && j < Total(m) * CHUNK <= BUFFER && (forall k :: 1 <= k <= Total(m) ==> r.got[k])
    ensures r.buf[j] == if j < |m| then m[j] else NUL
  {
    var i := j / CHUNK;
    assert r.got[i + 1];
    assert r.buf[j] == r.buf[i * CHUNK..(i + 1) * CHUNK][j % CHUNK] == Chunk(m, i).data[j % CHUNK];
  }

  predicate IsPacket(p: Packet) { 1 <= p.id <= MAX_CHUNKS && |p.data| == CHUNK }

  predicate ArePackets(ps: seq<Packet>) { forall i :: 0 <= i < |ps| ==> IsPacket(ps[i]) }

  // One packet is there; nothing is received once the message is complete.
  function Take(r: Receiver, p: Packet): (r': Receiver)
    requires Shape(r) && IsPacket(p)
    ensures Shape(r')
  {
    if Waiting(r) then Accept(r, p) else r
  }

  // The packets arrive in this order.
  function Arrive(r: Receiver, arrivals: seq<Packet>): (r': Receiver)
    requires Shape(r) && ArePackets(arrivals)
    ensures Shape(r')
  {
    if arrivals == [] then r else
      var n := |arrivals| - 1;
      assert IsPacket(arrivals[n]);
      Take(Arrive(r, arrivals[..n]), arrivals[n])
  }

  lemma ArriveNone(r: Receiver, arrivals: seq<Packet>)
    requires Shape(r) && ArePackets(arrivals)
    ensures ArePackets(arrivals[..0]) && Arrive(r, arrivals[..0]) == r
  {
  }

  lemma ArriveNext(r: Receiver, arrivals: seq<Packet>, i: nat)
    requires Shape(r) && ArePackets(arrivals) && i < |arrivals|
    ensures IsPacket(arrivals[i]) && ArePackets(arrivals[..i]) && ArePackets(arrivals[..i + 1])
    ensures Arrive(r, arrivals[..i + 1]) == Take(Arrive(r, arrivals[..i]), arrivals[i])
  {
    assert arrivals[..i + 1][..i] == arrivals[..i];
    assert IsPacket(arrivals[i]);
  }

  // How receive_chunks ends: it still waits, it has terminated the message, or its final NUL
  // lies beyond the buffer.
  datatype Outcome = Waits | Complete | Overrun

  // receive_chunks.  The arrivals are what recvfrom delivers, one packet at a time; if they
  // run out before the message is complete, it goes on waiting.
  method ReceiveChunks(buf: array<char>, arrivals: seq<Packet>, ghost m: string)
    returns (out: Outcome, acks: seq<nat>, ghost r: Receiver)
    requires buf.Length == BUFFER && 1 <= |m| <= BUFFER
    requires forall i :: 0 <= i < |arrivals| ==> FromMessage(m, arrivals[i])
    modifies buf
    ensures ArePackets(arrivals)
    ensures r == Arrive(Start(old(buf[..])), arrivals) && Holds(m, r)
    ensures out == Waits <==> Waiting(r)
    ensures out == Overrun <==> !Waiting(r) && |m| > BUFFER - CHUNK
    ensures out == Complete ==> r.count * CHUNK < |r.buf| && buf[..] == r.buf[r.count * CHUNK := NUL]
    ensures out != Complete ==> buf[..] == r.buf
    ensures out != Waits ==> buf[..|m|] == m && (|m| < BUFFER ==> buf[|m|] == NUL)
    ensures forall k :: k in acks <==> 1 <= k <= MAX_CHUNKS && r.got[k]
    ensures out == Waits ==> forall i :: 0 <= i < |arrivals| ==> r.got[arrivals[i].id]
  {
    hide Holds, Store, Arrive, Chunk, FromMessage, Stored;
    Packets(m, arrivals);
    r := Start(buf[..]);
    StartHolds(m, buf[..]);
    ArriveNone(r, arrivals);
    var received, total, got := 0, -1, seq(MAX_CHUNKS + 1, _ => false);
    acks := [];
    var i := 0;
    while (total == -1 || received < total) && i < |arrivals|
      invariant i <= |arrivals| && Holds(m, r) && r == Receiver(total, got, received, buf[..])
      invariant r == Arrive(Start(old(buf[..])), arrivals[..i])
      invariant forall k :: k in acks <==> 1 <= k <= MAX_CHUNKS && got[k]
      invariant forall k :: 0 <= k < i ==> got[arrivals[k].id]
    {
      var p := arrivals[i];
      AcceptHolds(m, r, p);
      ArriveNext(Start(old(buf[..])), arrivals, i);
      r := Accept(r, p);
      if total == -1 {
        total := p.total;
      }
      if !got[p.id] {
        got := got[p.id := true];
        received := received + 1;
        CopyChunk(buf, p.id - 1, p.data);
        acks := acks + [p.id];
      }
      i := i + 1;
    }
    ArriveStops(Start(old(buf[..])), arrivals, i);
    out := Waits;
    if !(total == -1 || received < total) {
      ReceivedText(m, r);
      if received * CHUNK < BUFFER {
        buf[received * CHUNK] := NUL;
        out := Complete;
      } else {
        out := Overrun;
      }
    }
  }

  lemma Packets(m: string, arrivals: seq<Packet>)
    requires |m| <= BUFFER && forall i :: 0 <= i < |arrivals| ==> FromMessage(m, arrivals[i])
    ensures ArePackets(arrivals)
  {
  }

  lemma ReceivedText(m: string, r: Receiver)
    requires Holds(m, r) && !Waiting(r) && 1 <= |m| <= BUFFER
    ensures |m| <= r.count * CHUNK <= BUFFER && (r.count * CHUNK < BUFFER <==> |m| <= BUFFER - CHUNK)
    ensures Shape(r) && r.buf[..|m|] == m && (|m| < r.count * CHUNK ==> r.buf[|m|] == NUL)
  {
    Received(m, r);
    TerminatorFits(m, r);
  }

  // Once the message is complete further packets change nothing.
  lemma {:induction false} ArriveStops(r: Receiver, arrivals: seq<Packet>, i: nat)
    requires Shape(r) && ArePackets(arrivals) && i <= |arrivals|
    requires i == |arrivals| || !Waiting(Arrive(r, arrivals[..i]))
    ensures Arrive(r, arrivals) == Arrive(r, arrivals[..i])
    decreases |arrivals|
  {
    var n := |arrivals|;
    if i < n {
      assert arrivals[..n - 1][..i] == arrivals[..i];
      ArriveStops(r, arrivals[..n - 1], i);
    } else {
      assert arrivals[..i] == arrivals;
    }
  }

  // --- without losses ---

  function Packages(m: string): (ps: seq<Packet>)
    ensures |ps| == Total(m)
  {
    seq(Total(m), i requires 0 <= i < Total(m) => Chunk(m, i))
  }

  lemma PackageAt(m: string, i: nat)
    requires 1 <= |m| <= BUFFER && i < Total(m)
    ensures Packages(m)[i].id == i + 1 <= MAX_CHUNKS && Packages(m)[i].total == Total(m)
  {
  }

  // The first k packets, each once and in order.
  lemma {:induction false} InOrder(m: string, buf: string, k: nat)
    requires |buf| == BUFFER && 1 <= |m| <= BUFFER && k <= Total(m)
    requires ArePackets(Packages(m))
    ensures var r := Arrive(Start(buf), Packages(m)[..k]);
            && r.count == k && (if k == 0 then r.total == -1 else r.total == Total(m))
            && forall j :: 0 <= j <= MAX_CHUNKS ==> (r.got[j] <==> 1 <= j <= k)
  {
    hide Arrive, Store, Packages, ArePackets;
    ArriveNone(Start(buf), Packages(m));
    if k > 0 {
      InOrder(m, buf, k - 1);
      ArriveNext(Start(buf), Packages(m), k - 1);
      PackageAt(m, k - 1);
    }
  }

  // Delivered once and in order, the packets of every message complete it.
  lemma InOrderCompletes(m: string, buf: string)
    requires |buf| == BUFFER && 1 <= |m| <= BUFFER
    ensures ArePackets(Packages(m))
    ensures Holds(m, Arrive(Start(buf), Packages(m))) && !Waiting(Arrive(Start(buf), Packages(m)))
  {
    InOrder(m, buf, Total(m));
    assert Packages(m)[..Total(m)] == Packages(m);
    ArriveHolds(m, buf, Packages(m));
  }

  lemma {:induction false} ArriveHolds(m: string, buf: string, arrivals: seq<Packet>)
    requires |buf| == BUFFER && |m| <= BUFFER && forall i :: 0 <= i < |arrivals| ==> FromMessage(m, arrivals[i])
    requires ArePackets(arrivals)
    ensures Holds(m, Arrive(Start(buf), arrivals))
    decreases |arrivals|
  {
    if arrivals == [] {
      StartHolds(m, buf);
    } else {
      var n := |arrivals| - 1;
      ArriveHolds(m, buf, arrivals[..n]);
      AcceptHolds(m, Arrive(Start(buf), arrivals[..n]), arrivals[n]);
    }
  }

  // A message of 73 characters: the final NUL goes to buf[80], one past the end.
  lemma OverrunInput(buf: string)
    requires |buf| == BUFFER
    ensures var m := seq(73, _ => 'a');
            && ArePackets(Packages(m))
            && var r := Arrive(Start(buf), Packages(m));
               !Waiting(r) && r.count * CHUNK == BUFFER
  {
    var m := seq(73, _ => 'a');
    InOrderCompletes(m, buf);
    TerminatorFits(m, Arrive(Start(buf), Packages(m)));
  }

  lemma StartHolds(m: string, buf: string)
    requires |buf| == BUFFER
    ensures Holds(m, Start(buf))
  {
    CountNone(Start(buf).got, MAX_CHUNKS + 1);
  }

  lemma {:induction false} CountNone(got: seq<bool>, n: nat)
    requires n <= |got| && forall k :: 0 <= k < n ==> !got[k]
    ensures Count(got, n) == 0
    decreases n
  {
    if n > 0 { CountNone(got, n - 1); }
  }

  // strncpy of one chunk into the buffer.
  method CopyChunk(buf: array<char>, i: nat, data: string)
    requires buf.Length == BUFFER && i * CHUNK + CHUNK <= BUFFER && |data| == CHUNK
    modifies buf
    ensures buf[..] == Store(old(buf[..]), i, data)
  {
    for j := 0 to CHUNK
      invariant forall k :: 0 <= k < BUFFER ==>
                  buf[k] == if i * CHUNK <= k < i * CHUNK + j then data[k - i * CHUNK] else old(buf[k])
    {
      buf[i * CHUNK + j] := data[j];
    }
  }

  // --- the sender ---

  // An acknowledgement of chunk i came in one of the first n rounds.
  predicate Arrived(incoming: seq<int>, n: nat, i: nat)
    requires n <= |incoming|
  {
    i + 1 in incoming[..n]
  }

  // Chunk i is sent again in round k: it is not acknowledged by then and its timeout has run out.
  predicate Again(incoming: seq<int>, expired: seq<seq<bool>>, k: nat, i: nat)
    requires k < |incoming| && k < |expired| && i < |expired[k]|
  {
    !Arrived(incoming, k + 1, i) && expired[k][i]
  }

  ghost predicate Timers(incoming: seq<int>, expired: seq<seq<bool>>) {
    |incoming| == |expired| == MAX_RETRIES && forall k :: 0 <= k < MAX_RETRIES ==> |expired[k]| == MAX_CHUNKS
  }

  // In how many of the first n rounds that happens.
  ghost function Resends(incoming: seq<int>, expired: seq<seq<bool>>, i: nat, n: nat): nat
    requires Timers(incoming, expired) && n <= MAX_RETRIES && i < MAX_CHUNKS
  {
    if n == 0 then 0 else Resends(incoming, expired, i, n - 1) + if Again(incoming, expired, n - 1, i) then 1 else 0
  }

  // What round k sends of the first j chunks, in order.
  ghost function Round(m: string, incoming: seq<int>, expired: seq<seq<bool>>, k: nat, j: nat): seq<Packet>
    requires Timers(incoming, expired) && k < MAX_RETRIES && j <= Total(m) <= MAX_CHUNKS
  {
    if j == 0 then []
    else Round(m, incoming, expired, k, j - 1) + (if Again(incoming, expired, k, j - 1) then [Chunk(m, j - 1)] else [])
  }

  // What n rounds send.
  ghost function Rounds(m: string, incoming: seq<int>, expired: seq<seq<bool>>, n: nat): seq<Packet>
    requires Timers(incoming, expired) && n <= MAX_RETRIES && Total(m) <= MAX_CHUNKS
  {
    if n == 0 then [] else Rounds(m, incoming, expired, n - 1) + Round(m, incoming, expired, n - 1, Total(m))
  }

  // Every chunk was acknowledged in one of the first n rounds.
  predicate AllArrived(m: string, incoming: seq<int>, n: nat)
    requires n <= |incoming|
  {
    forall i :: 0 <= i < Total(m) ==> Arrived(incoming, n, i)
  }

  // send_chunks.  incoming[k] is what receive_ack returns in round k, -1 for nothing, and
  // expired[k][i] tells whether the timeout of chunk i has run out by then.  sent lists the
  // packets in the order they are sent: every chunk once, and then in each round those that
  // are neither acknowledged nor within their timeout.
  method SendChunks(m: string, incoming: seq<int>, expired: seq<seq<bool>>) returns (all: bool, rounds: nat, sent: seq<Packet>)
    requires NUL !in m && Total(m) <= MAX_CHUNKS && Timers(incoming, expired)
    ensures rounds <= MAX_RETRIES && sent == Packages(m) + Rounds(m, incoming, expired, rounds)
    ensures all <==> AllArrived(m, incoming, rounds)
    ensures !all ==> rounds == MAX_RETRIES
    ensures forall n :: 0 < n < rounds ==> !AllArrived(m, incoming, n)
  {
    hide Arrived, Total;
    var total := Total(m);
    sent := [];
    for i := 0 to total
      invariant sent == Packages(m)[..i]
    {
      sent := sent + [Chunk(m, i)];
    }
    var acked := seq(total, _ => false);
    NoneArrived(m, incoming);
    var ackCnt := 0;
    rounds := 0;
    while rounds < MAX_RETRIES && ackCnt < total
      invariant rounds <= MAX_RETRIES && |acked| == total && ackCnt <= total && (rounds == 0 ==> ackCnt == 0)
      invariant sent == Packages(m) + Rounds(m, incoming, expired, rounds)
      invariant forall i :: 0 <= i < total ==> (acked[i] <==> Arrived(incoming, rounds, i))
      invariant rounds > 0 ==> (ackCnt == total <==> forall i :: 0 <= i < total ==> acked[i])
      invariant forall n :: 0 < n < rounds ==> !AllArrived(m, incoming, n)
    {
      var id := incoming[rounds];
      AckedNext(m, incoming, rounds, acked, id);
      if 1 <= id <= total {
        acked := acked[id - 1 := true];
      }
      var again;
      ackCnt, again := SendRound(m, acked, incoming, expired, rounds);
      sent := sent + again;
      rounds := rounds + 1;
    }
    all := ackCnt == total;
  }

  // The loop over the chunks in round k: sends what is due and counts the acknowledged ones.
  method SendRound(m: string, acked: seq<bool>, ghost incoming: seq<int>, expired: seq<seq<bool>>, k: nat)
    returns (ackCnt: nat, sent: seq<Packet>)
    requires Timers(incoming, expired) && k < MAX_RETRIES && |acked| == Total(m) <= MAX_CHUNKS
    requires forall i :: 0 <= i < |acked| ==> (acked[i] <==> Arrived(incoming, k + 1, i))
    ensures sent == Round(m, incoming, expired, k, Total(m))
    ensures ackCnt <= |acked| && (ackCnt == |acked| <==> forall i :: 0 <= i < |acked| ==> acked[i])
  {
    hide Arrived;
    ackCnt, sent := 0, [];
    for i := 0 to |acked|
      invariant ackCnt <= i && (ackCnt == i <==> forall j :: 0 <= j < i ==> acked[j])
      invariant sent == Round(m, incoming, expired, k, i)
    {
      if !acked[i] {
        if expired[k][i] {
          sent := sent + [Chunk(m, i)];
        }
      } else {
        ackCnt := ackCnt + 1;
      }
    }
  }

  lemma NoneArrived(m: string, incoming: seq<int>)
    ensures forall i :: 0 <= i < Total(m) ==> !Arrived(incoming, 0, i)
  {
  }

  lemma AckedNext(m: string, incoming: seq<int>, n: nat, acked: seq<bool>, id: int)
    requires n < |incoming| && id == incoming[n] && |acked| == Total(m)
    requires forall i :: 0 <= i < |acked| ==> (acked[i] <==> Arrived(incoming, n, i))
    ensures var a := if 1 <= id <= |acked| then acked[id - 1 := true] else acked;
            forall i :: 0 <= i < |a| ==> (a[i] <==> Arrived(incoming, n + 1, i))
  {
    var a := if 1 <= id <= |acked| then acked[id - 1 := true] else acked;
    forall i | 0 <= i < |a| ensures a[i] <==> Arrived(incoming, n + 1, i) {
      assert incoming[..n + 1] == incoming[..n] + [id];
      assert acked[i] <==> Arrived(incoming, n, i);
    }
  }

  /** Each chunk is sent once at the start, and once more in every round in which it is not
      acknowledged and its timeout has run out. */
  lemma SentTimes(m: string, incoming: seq<int>, expired: seq<seq<bool>>, n: nat, i: nat)
    requires Timers(incoming, expired) && n <= MAX_RETRIES && i < Total(m) <= MAX_CHUNKS
    ensures multiset(Packages(m) + Rounds(m, incoming, expired, n))[Chunk(m, i)]
            == 1 + Resends(incoming, expired, i, n)
  {
    PackagesOnce(m, i, Total(m));
    assert Packages(m)[..Total(m)] == Packages(m);
    RoundsTimes(m, incoming, expired, n, i);
  }

  lemma {:induction false} PackagesOnce(m: string, i: nat, k: nat)
    requires i < Total(m) && k <= Total(m)
    ensures multiset(Packages(m)[..k])[Chunk(m, i)] == if i < k then 1 else 0
  {
    if k > 0 {
      PackagesOnce(m, i, k - 1);
      assert Packages(m)[..k] == Packages(m)[..k - 1] + [Chunk(m, k - 1)];
    }
  }

  lemma {:induction false} RoundTimes(m: string, incoming: seq<int>, expired: seq<seq<bool>>, k: nat, j: nat, i: nat)
    requires Timers(incoming, expired) && k < MAX_RETRIES && j <= Total(m) <= MAX_CHUNKS && i < Total(m)
    ensures multiset(Round(m, incoming, expired, k, j))[Chunk(m, i)]
            == if i < j && Again(incoming, expired, k, i) then 1 else 0
  {
    hide Again, Chunk, Total, Round;
    if j == 0 {
      RoundNone(m, incoming, expired, k);
    } else {
      RoundTimes(m, incoming, expired, k, j - 1, i);
      RoundNext(m, incoming, expired, k, j - 1);
      OneMore(Round(m, incoming, expired, k, j - 1), Chunk(m, j - 1), Chunk(m, i));
      if i != j - 1 { OtherChunk(m, i, j - 1); }
    }
  }

  lemma RoundNone(m: string, incoming: seq<int>, expired: seq<seq<bool>>, k: nat)
    requires Timers(incoming, expired) && k < MAX_RETRIES && Total(m) <= MAX_CHUNKS
    ensures Round(m, incoming, expired, k, 0) == []
  {
  }

  lemma RoundNext(m: string, incoming: seq<int>, expired: seq<seq<bool>>, k: nat, j: nat)
    requires Timers(incoming, expired) && k < MAX_RETRIES && j < Total(m) <= MAX_CHUNKS
    ensures var sent := Round(m, incoming, expired, k, j);
            Round(m, incoming, expired, k, j + 1) == if Again(incoming, expired, k, j) then sent + [Chunk(m, j)] else sent
  {
    hide Again, Chunk, Total;
  }

  lemma OneMore(sent: seq<Packet>, p: Packet, q: Packet)
    ensures multiset(sent + [p])[q] == multiset(sent)[q] + if p == q then 1 else 0
  {
  }

  lemma OtherChunk(m: string, i: nat, j: nat)
    requires i < Total(m) && j < Total(m) && i != j
    ensures Chunk(m, i) != Chunk(m, j)
  {
  }

  lemma {:induction false} RoundsTimes(m: string, incoming: seq<int>, expired: seq<seq<bool>>, n: nat, i: nat)
    requires Timers(incoming, expired) && n <= MAX_RETRIES && i < Total(m) <= MAX_CHUNKS
    ensures multiset(Rounds(m, incoming, expired, n))[Chunk(m, i)] == Resends(incoming, expired, i, n)
  {
    hide Again, Round;
    if n > 0 {
      RoundsTimes(m, incoming, expired, n - 1, i);
      RoundTimes(m, incoming, expired, n - 1, Total(m), i);
    }
  }

  // Whatever is sent is a chunk of the message.
  lemma {:induction false} SentChunks(m: string, incoming: seq<int>, expired: seq<seq<bool>>, n: nat)
    requires Timers(incoming, expired) && n <= MAX_RETRIES && Total(m) <= MAX_CHUNKS
    ensures forall k :: 0 <= k < |Packages(m) + Rounds(m, incoming, expired, n)|
              ==> FromMessage(m, (Packages(m) + Rounds(m, incoming, expired, n))[k])
  {
    hide Again;
    if n > 0 {
      SentChunks(m, incoming, expired, n - 1);
      RoundChunks(m, incoming, expired, n - 1, Total(m));
      assert Packages(m) + Rounds(m, incoming, expired, n)
          == Packages(m) + Rounds(m, incoming, expired, n - 1) + Round(m, incoming, expired, n - 1, Total(m));
    }
  }

  lemma {:induction false} RoundChunks(m: string, incoming: seq<int>, expired: seq<seq<bool>>, k: nat, j: nat)
    requires Timers(incoming, expired) && k < MAX_RETRIES && j <= Total(m) <= MAX_CHUNKS
    ensures forall x :: 0 <= x < |Round(m, incoming, expired, k, j)| ==> FromMessage(m, Round(m, incoming, expired, k, j)[x])
  {
    hide Again;
    if j > 0 { RoundChunks(m, incoming, expired, k, j - 1); }
  }

  // --- one session ---

  // Deliver: a packet that was sent arrives, any number of times and in any order.  Ack: an
  // acknowledgement that was sent arrives.
  datatype Event = Deliver(p: Packet) | Ack(id: nat)

  // acks: what the receiver has sent; acked: what has reached the sender.
  datatype Session = Session(r: Receiver, acks: set<nat>, acked: set<nat>)

  ghost predicate Possible(m: string, s: Session, e: Event) {
    match e
    case Deliver(p) => FromMessage(m, p) && Waiting(s.r)
    case Ack(id) => id in s.acks
  }

  ghost function Next(m: string, s: Session, e: Event): Session
    requires Possible(m, s, e) && Shape(s.r) && Total(m) <= MAX_CHUNKS
  {
    match e
    case Deliver(p) =>
      Session(Accept(s.r, p), if s.r.got[p.id] then s.acks else s.acks + {p.id}, s.acked)
    case Ack(id) => s.(acked := s.acked + {id})
  }

  ghost predicate Linked(m: string, s: Session) {
    && Holds(m, s.r) && s.acked <= s.acks
    && forall k :: k in s.acks ==> k <= MAX_CHUNKS && s.r.got[k]
  }

  ghost predicate Run(m: string, states: seq<Session>, events: seq<Event>) {
    && |states| == |events| + 1 && Total(m) <= MAX_CHUNKS
    && (exists buf :: |buf| == BUFFER && states[0] == Session(Start(buf), {}, {}))
    && forall i :: 0 <= i < |events| ==>
         Possible(m, states[i], events[i]) && Shape(states[i].r) && states[i + 1] == Next(m, states[i], events[i])
  }

  lemma {:induction false} RunLinked(m: string, states: seq<Session>, events: seq<Event>, n: nat)
    requires Run(m, states, events) && n < |states|
    ensures Linked(m, states[n])
  {
    if n == 0 {
      var buf :| |buf| == BUFFER && states[0] == Session(Start(buf), {}, {});
      StartHolds(m, buf);
    } else {
      RunLinked(m, states, events, n - 1);
      var s, e := states[n - 1], events[n - 1];
      assert Possible(m, s, e) && states[n - 1 + 1] == Next(m, s, e);
      if e.Deliver? { AcceptHolds(m, s.r, e.p); }
    }
  }

  // What arrived at the receiver.
  function Deliveries(events: seq<Event>): seq<Packet> {
    if events == [] then [] else
      var n := |events| - 1;
      Deliveries(events[..n]) + if events[n].Deliver? then [events[n].p] else []
  }

  lemma DeliverNext(r: Receiver, ps: seq<Packet>, p: Packet)
    requires Shape(r) && ArePackets(ps) && IsPacket(p)
    ensures ArePackets(ps + [p]) && Arrive(r, ps + [p]) == Take(Arrive(r, ps), p)
  {
    assert (ps + [p])[..|ps|] == ps;
  }

  // The receiver of a session is the one that receive_chunks computes from what arrives.
  lemma {:induction false} SessionReceiver(m: string, states: seq<Session>, events: seq<Event>, n: nat, buf: string)
    requires Run(m, states, events) && n < |states| && |buf| == BUFFER && states[0].r == Start(buf)
    ensures ArePackets(Deliveries(events[..n]))
    ensures states[n].r == Arrive(Start(buf), Deliveries(events[..n]))
  {
    ArriveNone(Start(buf), []);
    hide Arrive, Store, Accept;
    if n > 0 {
      SessionReceiver(m, states, events, n - 1, buf);
      var e := events[n - 1];
      SessionStep(m, states, events, n - 1);
      assert events[..n][..n - 1] == events[..n - 1];
      if e.Deliver? {
        assert Deliveries(events[..n]) == Deliveries(events[..n - 1]) + [e.p];
        DeliverNext(Start(buf), Deliveries(events[..n - 1]), e.p);
      } else {
        assert Deliveries(events[..n]) == Deliveries(events[..n - 1]);
      }
    }
  }

  lemma SessionStep(m: string, states: seq<Session>, events: seq<Event>, n: nat)
    requires Run(m, states, events) && n < |events|
    ensures var s, e, t := states[n], events[n], states[n + 1];
            && Shape(s.r) && (e.Deliver? ==> IsPacket(e.p) && Waiting(s.r) && t.r == Accept(s.r, e.p))
            && (e.Ack? ==> t.r == s.r)
  {
    hide Accept, Store;
    assert Possible(m, states[n], events[n]);
  }

  // It has acknowledged exactly the packets that it stored.
  lemma {:induction false} StoredIsAcknowledged(m: string, states: seq<Session>, events: seq<Event>, n: nat)
    requires Run(m, states, events) && n < |states|
    ensures Shape(states[n].r) && forall k :: k in states[n].acks <==> 1 <= k <= MAX_CHUNKS && states[n].r.got[k]
  {
    if n > 0 {
      StoredIsAcknowledged(m, states, events, n - 1);
      var e := events[n - 1];
      assert Possible(m, states[n - 1], e) && states[n - 1 + 1] == Next(m, states[n - 1], e);
    } else {
      var buf :| |buf| == BUFFER && states[0] == Session(Start(buf), {}, {});
    }
  }

  // A sender that has every chunk acknowledged: the receiver has stored all of them, and a
  // message that fits the buffer with its NUL is delivered.
  lemma AcknowledgedIsStored(m: string, states: seq<Session>, events: seq<Event>, n: nat)
    requires Run(m, states, events) && n < |states| && 1 <= |m| <= BUFFER
    requires forall k :: 1 <= k <= Total(m) ==> k in states[n].acked
    ensures Stored(m, states[n].r) && (|m| <= BUFFER - CHUNK ==> Delivered(m, states[n].r))
  {
    RunLinked(m, states, events, n);
    var r := states[n].r;
    assert 1 in states[n].acked && r.got[1];
    CountAll(r.got, MAX_CHUNKS + 1, Total(m));
    assert r.count > 0;
    Received(m, r);
  }

  /** When send_chunks ends with ack_cnt == total_chunks, that is, with its result `all`, every
      chunk was stored by receive_chunks.  Each acknowledgement that receive_ack returned in
      the rounds so far is one that reached the sender. */
  lemma SentIsStored(m: string, states: seq<Session>, events: seq<Event>, n: nat,
                     incoming: seq<int>, rounds: nat, all: bool)
    requires Run(m, states, events) && n < |states| && 1 <= |m| <= BUFFER && rounds <= |incoming|
    requires forall k :: 0 <= k < rounds && incoming[k] >= 0 ==> incoming[k] in states[n].acked
    requires all <==> AllArrived(m, incoming, rounds)
    ensures all ==> Stored(m, states[n].r) && (|m| <= BUFFER - CHUNK ==> Delivered(m, states[n].r))
  {
    if all {
      forall k | 1 <= k <= Total(m) ensures k in states[n].acked {
        assert Arrived(incoming, rounds, k - 1);
        var j :| 0 <= j < rounds && incoming[..rounds][j] == k;
        assert incoming[j] == k;
      }
      AcknowledgedIsStored(m, states, events, n);
    }
  }

  lemma {:induction false} CountAll(got: seq<bool>, n: nat, t: nat)
    requires n <= |got| && forall k :: 1 <= k <= t && k < n ==> got[k]
    ensures Count(got, n) >= if n == 0 then 0 else if t < n then t else n - 1
    decreases n
  {
    if n > 0 { CountAll(got, n - 1, t); }
  }
}
