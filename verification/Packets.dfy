/** Which packets of a stream of commands are delivered. com_process_data does not advance
  its cursor past the data of a command (Code/src/Communication/Process.c:76-91), so what it
  reads is not always what was sent: here is what it reads, and that the commands arrive
  if and only if that is the stream. */
module Packets {
  import opened Bytes
  import opened Framing

  /** The bytes the parser takes for its input, as Feed goes through it: behind data as many
    as are left, but from the beginning of the data again. */
  function Consumed(p: Parser, d: seq<bv8>): (c: seq<bv8>)
    requires Proper(p)
    ensures |c| == |d|
    decreases |d|, p.state == COM_DATA
  {
    if p.state < COM_DATA then
      if d == [] then [] else [d[0]] + Consumed(HeaderByte(p, d[0]), d[1..])
    else if |d| < p.total - p.processed then d
    else
      var k := p.total - p.processed;
      d[..k] + Consumed(p.(state := COM_ID, processed := p.total), d[..|d| - k])
  }

  function ConsumedAll(p: Parser, packets: seq<seq<bv8>>): seq<bv8>
    requires Proper(p)
    decreases |packets|
  {
    if packets == [] then []
    else Consumed(p, packets[0]) + ConsumedAll(Feed(p, packets[0]).parser, packets[1..])
  }

  lemma {:induction false} HeaderConsumed(p: Parser, d: seq<bv8>)
    requires Proper(p) && p.state < COM_DATA
    ensures d == [] ==> Consumed(p, d) == []
    ensures d != [] ==> Consumed(p, d) == [d[0]] + Consumed(HeaderByte(p, d[0]), d[1..])
  {
  }

  lemma {:induction false} DataConsumed(p: Parser, d: seq<bv8>)
    requires Proper(p) && p.state == COM_DATA
    ensures
      var k := p.total - p.processed;
      if |d| < k then Consumed(p, d) == d
      else Consumed(p, d) == d[..k] + Consumed(p.(state := COM_ID, processed := p.total), d[..|d| - k])
  {
  }

  // ----- a delivery that has gone wrong -----

  /** A header is under way that is not the one of the next command. */
  ghost predicate OffTrack(p: Parser, x: Delivery) {
    && Proper(p) && x.Delivery? && p.state > COM_ID
    && (x.commands == []
        || var n := |x.commands[0].payload|;
           || p.id != x.commands[0].id
           || (p.state >= 2 && p.total % 256 != n % 256)
           || (p.state >= 3 && p.total % 65536 != n % 65536)
           || (p.state == COM_DATA && p.total != n))
  }

  ghost predicate Lost(p: Parser, x: Delivery) {
    Proper(p) && (x.Wrong? || OffTrack(p, x))
  }

  lemma StillOffTrack(p: Parser, x: Delivery, b: bv8)
    requires OffTrack(p, x) && p.state < COM_DATA
    ensures OffTrack(HeaderByte(p, b), x)
  {
    hide HeaderByte, ToNat;
    NextParser(p, b);
    SameRest(p.total, ToNat(b));
  }

  lemma SameRest(t: nat, b: nat)
    ensures (t + 256 * b) % 256 == t % 256
    ensures (t + 65536 * b) % 256 == t % 256 && (t + 65536 * b) % 65536 == t % 65536
  {
    SameRestOf256(t, b);
    SameRestOf256(t, 256 * b);
    var q, r := t / 65536, t % 65536;
    assert t + 65536 * b == 65536 * (q + b) + r;
  }

  lemma SameRestOf256(t: nat, b: nat)
    ensures (t + 256 * b) % 256 == t % 256
  {
    var q, r := t / 256, t % 256;
    assert t + 256 * b == 256 * (q + b) + r;
  }

  /** What is lost stays lost. */
  lemma {:induction false} LostForGood(p: Parser, x: Delivery, d: seq<bv8>)
    requires Lost(p, x)
    ensures Lost(Feed(p, d).parser, DeliverAll(x, Feed(p, d).calls))
    decreases |d|, p.state == COM_DATA
  {
    hide Feed, Deliver, HeaderByte, OffTrack;
    if x.Wrong? {
      WrongStays(Feed(p, d).calls);
    } else if p.state < COM_DATA {
      HeaderFed(p, d);
      if d != [] {
        StillOffTrack(p, x, d[0]);
        LostForGood(HeaderByte(p, d[0]), x, d[1..]);
      }
    } else {
      DataFed(p, d);
      var c := Feed(p, d).calls[0];
      assert Feed(p, d).calls == [c] + Feed(p, d).calls[1..];
      DeliverAppend(x, [c], Feed(p, d).calls[1..]);
      DeliverOne(x, c);
      RefusedCall(p, x, c);
      WrongStays(Feed(p, d).calls[1..]);
    }
  }

  lemma RefusedCall(p: Parser, x: Delivery, c: Call)
    requires OffTrack(p, x) && p.state == COM_DATA && c.id == p.id && c.total == p.total
    ensures Deliver(x, c) == Wrong
  {
  }

  // ----- byte by byte -----

  /** Where the parser stands after some bytes: in step with the delivery if what it has
    consumed is the beginning of what was to come, and lost otherwise. */
  ghost predicate Tracks(p: Parser, x: Delivery, c: seq<bv8>, p': Parser, x': Delivery)
    requires Proper(p) && x.Delivery?
  {
    if c <= Left(p, x)
    then InStep(p', x') && Sendable(x'.commands) && Left(p, x) == c + Left(p', x')
    else Lost(p', x')
  }

  lemma {:induction false} FeedTracks(p: Parser, x: Delivery, d: seq<bv8>)
    requires InStep(p, x) && Sendable(x.commands)
    ensures Tracks(p, x, Consumed(p, d), Feed(p, d).parser, DeliverAll(x, Feed(p, d).calls))
    decreases |d|, p.state == COM_DATA, 1
  {
    hide *;
    InStepParts(p, x);
    HeaderFed(p, d);
    if p.state < COM_DATA {
      HeaderConsumed(p, d);
      if d == [] {
        NothingTracks(p, x);
        DeliverNone(x);
      } else {
        HeaderTracks(p, x, d[0]);
        var p' := HeaderByte(p, d[0]);
        if Lost(p', x) {
          LostForGood(p', x, d[1..]);
          LostTracks(p, x, d[0], Consumed(p', d[1..]), Feed(p, d).parser, DeliverAll(x, Feed(p, d).calls));
        } else {
          FeedTracks(p', x, d[1..]);
          StepTracks(p, x, [d[0]], p', x, Consumed(p', d[1..]), Feed(p, d).parser, DeliverAll(x, Feed(p, d).calls));
        }
      }
    } else {
      DataTracks(p, x, d);
    }
  }

  lemma DeliverNone(x: Delivery)
    ensures DeliverAll(x, []) == x
  {
  }

  lemma NothingTracks(p: Parser, x: Delivery)
    requires InStep(p, x) && Sendable(x.commands)
    ensures Tracks(p, x, [], p, x)
  {
    InStepParts(p, x);
    hide Left, InStep, Sendable;
    assert [] + Left(p, x) == Left(p, x);
  }

  /** Two stretches one after the other. */
  lemma StepTracks(p: Parser, x: Delivery, c: seq<bv8>, p1: Parser, x1: Delivery, c1: seq<bv8>, p2: Parser, x2: Delivery)
    requires Proper(p) && x.Delivery? && InStep(p1, x1) && c <= Left(p, x)
    requires Tracks(p, x, c, p1, x1) && Proper(p1) && x1.Delivery? && Tracks(p1, x1, c1, p2, x2)
    ensures Tracks(p, x, c + c1, p2, x2)
  {
    hide Left, InStep, Sendable, Lost;
    var l, l1 := Left(p, x), Left(p1, x1);
    PrefixFirst(c, c1, l);
    PrefixRest(c, c1, l1);
    if c1 <= l1 {
      InStepParts(p2, x2);
      var l2 := Left(p2, x2);
      assert l == c + (c1 + l2) == (c + c1) + l2;
    }
  }

  lemma PrefixRest(c: seq<bv8>, c1: seq<bv8>, l1: seq<bv8>)
    ensures c + c1 <= c + l1 <==> c1 <= l1
  {
    if c + c1 <= c + l1 {
      assert c1 == (c + c1)[|c|..] == (c + l1)[..|c + c1|][|c|..] == l1[..|c1|];
    }
    if c1 <= l1 {
      assert c + c1 == (c + l1)[..|c + c1|];
    }
  }

  lemma PrefixIn(d: seq<bv8>, rest: seq<bv8>, more: seq<bv8>)
    requires |d| <= |rest|
    ensures d <= rest + more <==> d <= rest
  {
    assert (rest + more)[..|d|] == rest[..|d|];
  }

  /** More data goes on with the payload exactly if it is the beginning of the rest of it. */
  lemma DoneIn(payload: seq<bv8>, done: seq<bv8>, d: seq<bv8>)
    requires done <= payload
    ensures done + d <= payload <==> d <= payload[|done|..]
    ensures done + d == payload <==> d == payload[|done|..]
  {
    var rest := payload[|done|..];
    assert payload == done + rest;
    PrefixRest(done, d, rest);
    if done + d == payload {
      assert d == (done + d)[|done|..];
    }
  }

  lemma LostTracks(p: Parser, x: Delivery, b: bv8, c: seq<bv8>, p': Parser, x': Delivery)
    requires Proper(p) && x.Delivery? && !([b] <= Left(p, x)) && Lost(p', x')
    ensures Tracks(p, x, [b] + c, p', x')
  {
    hide Left, Lost, InStep;
    PrefixFirst([b], c, Left(p, x));
  }

  lemma PrefixFirst(a: seq<bv8>, b: seq<bv8>, l: seq<bv8>)
    ensures a + b <= l ==> a <= l
  {
    if a + b <= l {
      assert a == (a + b)[..|a|] == l[..|a|];
    }
  }

  /** One byte of a header: it is the expected one, or the delivery is lost. */
  lemma HeaderTracks(p: Parser, x: Delivery, b: bv8)
    requires InStep(p, x) && Sendable(x.commands) && p.state < COM_DATA
    ensures
      var p' := HeaderByte(p, b);
      && Tracks(p, x, [b], p', x) && (Lost(p', x) <==> !([b] <= Left(p, x)))
      && (!Lost(p', x) ==> InStep(p', x) && Proper(p'))
  {
    var p' := HeaderByte(p, b);
    if x.commands == [] {
      assert Left(p, x) == [];
    } else {
      var e := Print(x.commands[0])[p.state];
      hide Left, InStep, HeaderByte, Print, LeftOfFirst, ToNat;
      HeaderLeft(p, x, e);
      if b == e {
        HeaderByteInStep(p, x, b);
        InStepNotLost(p', x);
        assert [b] <= Left(p, x);
      } else {
        WrongByte(p, x, b);
        assert Left(p, x)[0] == e;
      }
    }
  }

  lemma InStepNotLost(p: Parser, x: Delivery)
    requires InStep(p, x)
    ensures !Lost(p, x)
  {
    if p.state > COM_ID {
      RestOfRest(|x.commands[0].payload|);
    }
  }

  lemma RestOfRest(n: nat)
    ensures n % 256 % 256 == n % 256 && n % 65536 % 65536 == n % 65536
    ensures n % 65536 % 256 == n % 256
  {
    var q, r := n / 65536, n % 65536;
    assert n == r + 256 * (256 * q);
    SameRestOf256(r, 256 * q);
  }

  lemma WrongByte(p: Parser, x: Delivery, b: bv8)
    requires InStep(p, x) && p.state < COM_DATA && x.commands != [] && |x.commands[0].payload| < 0x100_0000
    requires b != Print(x.commands[0])[p.state]
    ensures OffTrack(HeaderByte(p, b), x)
  {
    hide HeaderByte, ToNat, ToByte, Print;
    var n := |x.commands[0].payload|;
    NextParser(p, b);
    PrintParts(x.commands[0]);
    ByteOfNat(b);
    NatOfByte(n % 256);
    NatOfByte(n / 256 % 256);
    NatOfByte(n / 65536 % 256);
    var v := ToNat(b);
    if p.state == 1 {
      assert v != n % 256;
    } else if p.state == 2 {
      assert v != n / 256 % 256;
      DifferentSize(n, v);
    } else if p.state == 3 {
      assert v != n / 65536 % 256;
      DifferentSize(n, v);
    }
  }

  lemma DifferentSize(n: nat, v: nat)
    requires v < 256
    ensures v != n / 256 % 256 ==> (n % 256 + 256 * v) % 65536 != n % 65536
    ensures v != n / 65536 % 256 && n < 0x100_0000 ==> n % 65536 + 65536 * v != n
  {
    SizeSplit(n);
    assert n % 256 + 256 * v < 65536;
  }

  /** Some data: it is the expected data, or the delivery is lost. */
  lemma {:induction false} DataTracks(p: Parser, x: Delivery, d: seq<bv8>)
    requires InStep(p, x) && Sendable(x.commands) && p.state == COM_DATA
    ensures Tracks(p, x, Consumed(p, d), Feed(p, d).parser, DeliverAll(x, Feed(p, d).calls))
    decreases |d|, true, 0
  {
    hide Feed, Consumed, Deliver, DeliverAll, Left, InStep, Sendable, Tracks, LeftOfFirst;
    InStepParts(p, x);
    DataFed(p, d);
    DataConsumed(p, d);
    DataCounted(p, x);
    var k := p.total - p.processed;
    if |d| < k {
      DeliverOne(x, Call(p.id, p.total, d));
      PartTracks(p, x, d);
    } else {
      var c := Call(p.id, p.total, d[..k]);
      var p1, x1 := p.(state := COM_ID, processed := p.total), Deliver(x, c);
      EndTracks(p, x, d[..k]);
      var more := Feed(p1, d[..|d| - k]);
      DeliverOne(x, c);
      DeliverAppend(x, [c], more.calls);
      FedProper(p1, d[..|d| - k]);
      if x1.Wrong? {
        WrongStays(more.calls);
        LostDataTracks(p, x, d[..k], Consumed(p1, d[..|d| - k]), more.parser);
      } else {
        FeedTracksIdle(p1, x1, d[..|d| - k]);
        StepTracks(p, x, d[..k], p1, x1, Consumed(p1, d[..|d| - k]), more.parser, DeliverAll(x1, more.calls));
      }
    }
  }

  lemma FedProper(p: Parser, d: seq<bv8>)
    requires Proper(p)
    ensures Proper(Feed(p, d).parser) && |Consumed(p, d)| == |d|
  {
  }

  lemma {:induction false} FeedTracksIdle(p: Parser, x: Delivery, d: seq<bv8>)
    requires InStep(p, x) && Sendable(x.commands) && p.state == COM_ID
    ensures Tracks(p, x, Consumed(p, d), Feed(p, d).parser, DeliverAll(x, Feed(p, d).calls))
    decreases |d|, false, 2
  {
    FeedTracks(p, x, d);
  }

  lemma PartTracks(p: Parser, x: Delivery, d: seq<bv8>)
    requires InStep(p, x) && Sendable(x.commands) && p.state == COM_DATA && |d| < p.total - p.processed
    ensures Tracks(p, x, d, p.(processed := p.processed + |d|), Deliver(x, Call(p.id, p.total, d)))
  {
    var c, done := x.commands[0], x.done + d;
    var rest, more := c.payload[|x.done|..], PrintAll(x.commands[1..]);
    DataLeft(p, x);
    DoneIn(c.payload, x.done, d);
    PrefixIn(d, rest, more);
    if d <= rest {
      PartInStep(p, x, d);
    }
  }

  lemma PartInStep(p: Parser, x: Delivery, d: seq<bv8>)
    requires InStep(p, x) && p.state == COM_DATA && |d| < p.total - p.processed
    requires d <= x.commands[0].payload[|x.done|..] && x.done + d <= x.commands[0].payload
    ensures
      var p', x' := p.(processed := p.processed + |d|), Deliver(x, Call(p.id, p.total, d));
      x' == Delivery(x.done + d, x.commands) && InStep(p', x') && Left(p, x) == d + Left(p', x')
  {
    var data := DataOfFirst(p, x);
    var p', x' := p.(processed := p.processed + |d|), Deliver(x, Call(p.id, p.total, d));
    hide Left, Print, PrintAll, InStep, Deliver;
    PartTaken(p, x, d);
    DataLeft(p, x);
    DataLeft(p', x');
    Regroup(d, data[|d|..], PrintAll(x.commands[1..]));
  }

  lemma Regroup(a: seq<bv8>, b: seq<bv8>, c: seq<bv8>)
    ensures (a + b) + c == a + (b + c)
  {
  }

  lemma EndTracks(p: Parser, x: Delivery, d: seq<bv8>)
    requires InStep(p, x) && Sendable(x.commands) && p.state == COM_DATA && |d| == p.total - p.processed
    ensures
      var p1, x1 := p.(state := COM_ID, processed := p.total), Deliver(x, Call(p.id, p.total, d));
      && Proper(p1) && Tracks(p, x, d, p1, x1) && (x1.Wrong? <==> !(d <= Left(p, x)))
      && (!x1.Wrong? ==> InStep(p1, x1) && Sendable(x1.commands))
  {
    var c := x.commands[0];
    var rest, more := c.payload[|x.done|..], PrintAll(x.commands[1..]);
    DataLeft(p, x);
    DoneIn(c.payload, x.done, d);
    PrefixIn(d, rest, more);
    var p1, x1 := p.(state := COM_ID, processed := p.total), Deliver(x, Call(p.id, p.total, d));
    hide Left, Print, PrintAll;
    if d <= rest {
      assert d == rest;
      assert x1 == Delivery([], x.commands[1..]);
      SendableRest(x.commands);
      IdleLeft(p1, x1);
    }
  }

  lemma IdleLeft(p: Parser, x: Delivery)
    requires Proper(p) && p.state == COM_ID && x.Delivery?
    ensures Left(p, x) == PrintAll(x.commands)
  {
  }

  lemma LostDataTracks(p: Parser, x: Delivery, d: seq<bv8>, c: seq<bv8>, p': Parser)
    requires Proper(p) && x.Delivery? && !(d <= Left(p, x)) && Proper(p')
    ensures Tracks(p, x, d + c, p', Wrong)
  {
    hide Left, InStep;
    PrefixFirst(d, c, Left(p, x));
  }

  // ----- packet by packet -----

  lemma {:induction false} LostPackets(p: Parser, x: Delivery, packets: seq<seq<bv8>>)
    requires Lost(p, x)
    ensures Lost(FeedAll(p, packets).parser, DeliverAll(x, FeedAll(p, packets).calls))
    decreases |packets|
  {
    hide Lost, Feed, Deliver;
    assert Proper(p) by { LostIsProper(p, x); }
    if packets == [] {
      DeliverNone(x);
    } else {
      var f := Feed(p, packets[0]);
      LostForGood(p, x, packets[0]);
      LostPackets(f.parser, DeliverAll(x, f.calls), packets[1..]);
      DeliverAppend(x, f.calls, FeedAll(f.parser, packets[1..]).calls);
    }
  }

  lemma LostIsProper(p: Parser, x: Delivery)
    requires Lost(p, x)
    ensures Proper(p)
  {
  }

  lemma {:induction false} PacketsTrack(p: Parser, x: Delivery, packets: seq<seq<bv8>>)
    requires InStep(p, x) && Sendable(x.commands)
    ensures Proper(p) && x.Delivery?
    ensures Tracks(p, x, ConsumedAll(p, packets), FeedAll(p, packets).parser, DeliverAll(x, FeedAll(p, packets).calls))
    decreases |packets|
  {
    InStepParts(p, x);
    hide InStep, Sendable, Feed, Deliver, Left, Lost, Consumed;
    if packets == [] {
      NothingTracks(p, x);
      DeliverNone(x);
    } else {
      var f := Feed(p, packets[0]);
      var c, x1 := Consumed(p, packets[0]), DeliverAll(x, f.calls);
      var more, after := ConsumedAll(f.parser, packets[1..]), FeedAll(f.parser, packets[1..]);
      FeedTracks(p, x, packets[0]);
      DeliverAppend(x, f.calls, after.calls);
      if c <= Left(p, x) {
        InStepParts(f.parser, x1);
        PacketsTrack(f.parser, x1, packets[1..]);
        StepTracks(p, x, c, f.parser, x1, more, after.parser, DeliverAll(x1, after.calls));
      } else {
        LostPackets(f.parser, x1, packets[1..]);
        PrefixFirst(c, more, Left(p, x));
      }
    }
  }

  /** Whether every command has been delivered, with its id, its size and its data in order,
    and nothing else, and the parser is idle. */
  ghost predicate Delivered(p: Parser, commands: seq<Command>, packets: seq<seq<bv8>>)
    requires Proper(p)
  {
    var f := FeedAll(p, packets);
    f.parser.state == COM_ID && DeliverAll(Delivery([], commands), f.calls) == Delivery([], [])
  }

  /** Commands are delivered if and only if the bytes that the parser consumes are the bytes
    of the commands. */
  lemma DeliveredExactly(p: Parser, commands: seq<Command>, packets: seq<seq<bv8>>)
    requires Proper(p) && p.state == COM_ID && Sendable(commands)
    ensures Delivered(p, commands, packets) <==> ConsumedAll(p, packets) == PrintAll(commands)
  {
    var x := Delivery([], commands);
    var f, c := FeedAll(p, packets), ConsumedAll(p, packets);
    var x' := DeliverAll(x, f.calls);
    PacketsTrack(p, x, packets);
    IdleLeft(p, x);
    ParserAfter(p, packets);
    hide FeedAll, ConsumedAll, DeliverAll, Feed, Left, PrintAll, InStep, OffTrack;
    if c <= PrintAll(commands) {
      InStepParts(f.parser, x');
      if Left(f.parser, x') == [] {
        NothingLeft(f.parser, x');
      } else if f.parser.state == COM_ID && x' == Delivery([], []) {
        IdleLeft(f.parser, x');
        NothingPrinted();
      }
    } else {
      LostNotDone(f.parser, x');
    }
  }

  lemma NothingPrinted()
    ensures PrintAll([]) == []
  {
  }

  lemma LostNotDone(p: Parser, x: Delivery)
    requires Lost(p, x)
    ensures !(p.state == COM_ID && x == Delivery([], []))
  {
  }

  lemma ParserAfter(p: Parser, packets: seq<seq<bv8>>)
    requires Proper(p) && p.state == COM_ID
    ensures
      var q := FeedAll(p, packets).parser;
      Proper(q) && (q.state == COM_DATA ==> q.processed < q.total)
  {
  }

  /** So it is if no packet goes on behind a command that has data. */
  lemma AlignedAreDelivered(p: Parser, commands: seq<Command>, packets: seq<seq<bv8>>)
    requires Proper(p) && p.state == COM_ID && Sendable(commands)
    requires Concat(packets) == PrintAll(commands) && AlignedAll(commands, FirstSize(commands), packets)
    ensures Delivered(p, commands, packets) && ConsumedAll(p, packets) == Concat(packets)
  {
    hide FeedAll, ConsumedAll, AlignedAll;
    FramingIsPacketIndependent(p, commands, packets);
    DeliveredExactly(p, commands, packets);
  }

  /** And it is not, whatever the ids, for a command with one byte of data, 7, and one without
    data in one packet: the 7 is read again as the id of the second. */
  lemma CursorNotAdvanced(x: bv8, y: bv8)
    ensures
      var commands := [Command(x, [7]), Command(y, [])];
      !Delivered(Parser(COM_ID, 0, 0, 0), commands, [PrintAll(commands)])
  {
    var p, commands := Parser(COM_ID, 0, 0, 0), [Command(x, [7]), Command(y, [])];
    var s := PrintAll(commands);
    TwoPrinted(x, y, s);
    SevenAgain(p, s);
    assert ConsumedAll(p, [s]) == Consumed(p, s) by { OnePacket(p, s); }
    assert Sendable(commands);
    DeliveredExactly(p, commands, [s]);
  }

  lemma OnePacket(p: Parser, s: seq<bv8>)
    requires Proper(p)
    ensures ConsumedAll(p, [s]) == Consumed(p, s)
  {
    assert [s][1..] == [];
  }

  lemma TwoPrinted(x: bv8, y: bv8, s: seq<bv8>)
    requires s == PrintAll([Command(x, [7]), Command(y, [])])
    ensures |s| == 9 && s[1] == ToByte(1) && s[2] == s[3] == s[6] == ToByte(0) && s[4] == 7 && s[5] == y
  {
    hide ToByte, Print;
    var a, b := Command(x, [7]), Command(y, []);
    PrintParts(a);
    PrintParts(b);
    assert [a, b][1..] == [b] && [b][1..] == [];
    NothingPrinted();
    assert PrintAll([b]) == Print(b) + [];
    assert s == Print(a) + Print(b);
    assert Print(a)[4] == Print(a)[4..][0];
  }

  /** The byte behind the data is read from the data again. */
  lemma SevenAgain(p: Parser, s: seq<bv8>)
    requires p == Parser(COM_ID, 0, 0, 0) && |s| == 9
    requires s[1] == ToByte(1) && s[2] == s[3] == s[6] == ToByte(0) && s[4] == 7
    ensures Consumed(p, s) != s
  {
    hide Consumed, HeaderByte, ToNat, ToByte;
    NatOfByte(0);
    NatOfByte(1);
    var p4 := HeaderConsumedWhole(p, s);
    var d := s[4..];
    DataConsumed(p4, d);
    var p5 := p4.(state := COM_ID, processed := 1);
    HeaderConsumed(p5, d[..4]);
    var q := HeaderByte(p5, 7);
    NextParser(p5, 7);
    HeaderConsumed(q, d[..4][1..]);
    var c := Consumed(p, s);
    assert c == s[..4] + ([s[4]] + Consumed(p5, d[..4]));
    assert c[5] == 7 && c[6] == s[5];
    SevenIsNotZero();
  }

  lemma SevenIsNotZero()
    ensures ToByte(0) != 7
  {
    NatOfByte(0);
  }

  lemma HeaderConsumedWhole(p: Parser, s: seq<bv8>) returns (r: Parser)
    requires Proper(p) && p.state == COM_ID && |s| >= 4
    ensures r == Parser(COM_DATA, s[0], ToNat(s[1]) + 256 * ToNat(s[2]) + 65536 * ToNat(s[3]), 0)
    ensures Consumed(p, s) == s[..4] + Consumed(r, s[4..])
  {
    hide Consumed, HeaderByte, ToNat;
    HeaderConsumed(p, s);
    NextParser(p, s[0]);
    var p1 := HeaderByte(p, s[0]);
    HeaderConsumed(p1, s[1..]);
    NextParser(p1, s[1]);
    var p2 := HeaderByte(p1, s[1]);
    HeaderConsumed(p2, s[2..]);
    NextParser(p2, s[2]);
    var p3 := HeaderByte(p2, s[2]);
    HeaderConsumed(p3, s[3..]);
    NextParser(p3, s[3]);
    r := HeaderByte(p3, s[3]);
    assert s[1..][0] == s[1] && s[1..][1..] == s[2..] && s[2..][0] == s[2] && s[2..][1..] == s[3..];
    assert s[3..][0] == s[3] && s[3..][1..] == s[4..];
  }
}
