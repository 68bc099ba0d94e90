/** The serial protocol: the resumable parser of the device
  (Code/src/Communication/Process.c) against the printers of the host. */
module Framing {
  import opened Bytes

  datatype Command = Command(id: bv8, payload: seq<bv8>)

  /** What com_exec gets to see: the command and the part of its data that is there. */
  datatype Call = Call(id: bv8, total: nat, data: seq<bv8>)

  // ----- printing -----

  /** The id and the size of a command, low byte first. */
  function Header(id: bv8, n: nat): (s: seq<bv8>)
    ensures |s| == 4
  {
    [id, ToByte(n % 256), ToByte(n / 256 % 256), ToByte(n / 65536 % 256)]
  }

  lemma HeaderIs(id: bv8, n: nat)
    requires n < 16777216
    ensures
      var s := Header(id, n);
      s[0] == id && ToNat(s[1]) + 256 * ToNat(s[2]) + 65536 * ToNat(s[3]) == n
  {
    ThreeBytesAre(n);
    SmallRemainder(n, 16777216);
    hide ToByte, ToNat;
  }

  lemma SmallRemainder(n: nat, m: nat)
    requires n < m
    ensures n % m == n
  {
  }

  /** Id, three bytes of size, low byte first, and the data. */
  function Print(c: Command): (s: seq<bv8>)
    ensures |s| == 4 + |c.payload|
  {
    Header(c.id, |c.payload|) + c.payload
  }

  function PrintAll(cs: seq<Command>): seq<bv8> {
    if cs == [] then [] else Print(cs[0]) + PrintAll(cs[1..])
  }

  datatype Printed = Printed(bytes: array<bv8>) | TooMuchData

  /** SerialCommand::toByteArray (Utility/desktop_app_v2/desktop2/SerialCommand.cpp), with its
    exception as a result. */
  method ToByteArray(c: Command) returns (r: Printed)
    ensures r.TooMuchData? <==> |c.payload| > 65535
    ensures r.Printed? ==> fresh(r.bytes) && r.bytes[..] == Print(c)
    ensures r.Printed? ==>
      && r.bytes.Length == 4 + |c.payload| && r.bytes[0] == c.id && r.bytes[4..] == c.payload
      && ToNat(r.bytes[1]) + 256 * ToNat(r.bytes[2]) + 65536 * ToNat(r.bytes[3]) == |c.payload|
  {
    var n := |c.payload|;
    if n > 65535 {
      return TooMuchData;
    }
    hide ToByte, ToNat, Header;
    var converted := new bv8[4 + n](_ => 0);
    PutHeader(converted, c.id, n);
    ghost var header := Header(c.id, n);
    assert converted[..4 + 0] == header + c.payload[..0];
    for i := 0 to n
      invariant converted[..4 + i] == header + c.payload[..i]
    {
      converted[4 + i] := c.payload[i];
      assert converted[..4 + i + 1] == converted[..4 + i] + [c.payload[i]];
      assert c.payload[..i + 1] == c.payload[..i] + [c.payload[i]];
    }
    assert converted[..4 + n] == converted[..] && c.payload[..n] == c.payload;
    HeaderIs(c.id, n);
    assert converted[..4] == header && converted[4..] == c.payload;
    r := Printed(converted);
  }

  /** Its first four assignments. */
  method PutHeader(converted: array<bv8>, id: bv8, n: nat)
    requires 4 <= converted.Length
    modifies converted
    ensures converted[..4] == Header(id, n)
  {
    hide ToByte;
    converted[0] := id;
    converted[1] := ToByte(n % 256);
    converted[2] := ToByte(n / 256 % 256);
    converted[3] := ToByte(n / 65536 % 256);
  }

  // ----- parsing -----

  const COM_ID: nat := 0
  const COM_DATA: nat := 4

  /** com_state, com_bytes_processed and the header fields of CURRENT_COMMAND. */
  datatype Parser = Parser(state: nat, id: bv8, total: nat, processed: nat)

  predicate Proper(p: Parser) {
    p.state <= COM_DATA && (p.state == COM_DATA ==> p.processed <= p.total)
  }

  function HeaderByte(p: Parser, b: bv8): (r: Parser)
    requires p.state < COM_DATA
    ensures Proper(r)
  {
    if p.state == 0 then p.(state := 1, id := b)
    else if p.state == 1 then p.(state := 2, total := ToNat(b))
    else if p.state == 2 then p.(state := 3, total := p.total + 256 * ToNat(b))
    else p.(state := 4, total := p.total + 65536 * ToNat(b), processed := 0)
  }

  datatype Fed = Fed(parser: Parser, calls: seq<Call>)

  /** What the parser makes of the bytes it still has. After the data of a command it goes
    on with as many bytes as are left, but from the beginning of that data: the cursor is
    not advanced past them. */
  function Feed(p: Parser, d: seq<bv8>): (f: Fed)
    requires Proper(p)
    ensures Proper(f.parser) && (f.parser.state == COM_DATA ==> f.parser.processed < f.parser.total)
    decreases |d|, p.state == COM_DATA
  {
    if p.state < COM_DATA then
      if d == [] then Fed(p, []) else Feed(HeaderByte(p, d[0]), d[1..])
    else if |d| < p.total - p.processed then
      Fed(p.(processed := p.processed + |d|), [Call(p.id, p.total, d)])
    else
      var k := p.total - p.processed;
      var f := Feed(p.(state := COM_ID, processed := p.total), d[..|d| - k]);
      Fed(f.parser, [Call(p.id, p.total, d[..k])] + f.calls)
  }

  function Joined(calls: seq<Call>, f: Fed): Fed {
    Fed(f.parser, calls + f.calls)
  }

  class Receiver {
    var state: nat
    var id: bv8
    var total: nat
    var processed: nat
    var calls: seq<Call>  // the calls of com_exec

    ghost predicate Valid()
      reads this
    {
      state <= COM_DATA && (state == COM_DATA ==> processed < total)
    }

    ghost function Now(): Parser
      reads this
    {
      Parser(state, id, total, processed)
    }

    constructor ()
      ensures Valid() && state == COM_ID && calls == []
    {
      state, id, total, processed, calls := COM_ID, 0, 0, 0, [];
    }

    /** The header cases of com_process_data, one after the other. */
    method ReadHeader(packet: seq<bv8>, data0: nat, lenght0: nat) returns (data: nat, lenght: nat)
      requires Proper(Now()) && data0 + lenght0 <= |packet| && lenght0 > 0
      modifies `state, `id, `total, `processed
      ensures Proper(Now()) && data + lenght == data0 + lenght0
      ensures if old(state) == COM_DATA then Now() == old(Now()) && lenght == lenght0 else lenght < lenght0
      ensures state < COM_DATA ==> lenght == 0
      ensures Feed(Now(), packet[data..data + lenght]) == Feed(old(Now()), packet[data0..data0 + lenght0])
    {
      hide Feed, HeaderByte, ToNat;
      data, lenght := data0, lenght0;
      if state == COM_ID {
        HeaderTaken(Now(), packet, data, lenght);
        NextParser(Now(), packet[data]);
        id, state := packet[data], 1;
        data, lenght := data + 1, lenght - 1;
      }
      if state == 1 && lenght != 0 {
        HeaderTaken(Now(), packet, data, lenght);
        NextParser(Now(), packet[data]);
        total, state := ToNat(packet[data]), 2;
        data, lenght := data + 1, lenght - 1;
      }
      data, lenght := ReadSize(packet, data, lenght);
    }

    /** The second and third byte of the size. */
    method ReadSize(packet: seq<bv8>, data0: nat, lenght0: nat) returns (data: nat, lenght: nat)
      requires Proper(Now()) && data0 + lenght0 <= |packet| && state != COM_ID && (state == 1 ==> lenght0 == 0)
      modifies `state, `total, `processed
      ensures Proper(Now()) && data + lenght == data0 + lenght0 && lenght <= lenght0
      ensures if old(state) == COM_DATA then Now() == old(Now()) && lenght == lenght0 else lenght < lenght0 || lenght0 == 0
      ensures state < COM_DATA ==> lenght == 0
      ensures Feed(Now(), packet[data..data + lenght]) == Feed(old(Now()), packet[data0..data0 + lenght0])
    {
      hide Feed, HeaderByte, ToNat;
      data, lenght := data0, lenght0;
      if state == 2 && lenght != 0 {
        HeaderTaken(Now(), packet, data, lenght);
        NextParser(Now(), packet[data]);
        total, state := total + 256 * ToNat(packet[data]), 3;
        data, lenght := data + 1, lenght - 1;
      }
      if state == 3 && lenght != 0 {
        HeaderTaken(Now(), packet, data, lenght);
        NextParser(Now(), packet[data]);
        total, state, processed := total + 65536 * ToNat(packet[data]), 4, 0;
        data, lenght := data + 1, lenght - 1;
      }
    }

    /** The data case of com_process_data; `data` is not advanced. */
    method TakeData(packet: seq<bv8>, data: nat, lenght0: nat) returns (lenght: nat, call: Call)
      requires Proper(Now()) && state == COM_DATA && data + lenght0 <= |packet|
      modifies `state, `processed, `calls
      ensures lenght <= lenght0 && |call.data| <= lenght0 && Valid() && calls == old(calls) + [call]
      ensures lenght > 0 ==> state == COM_ID
      ensures old(processed) < total && lenght0 > 0 ==> lenght < lenght0
      ensures Feed(old(Now()), packet[data..data + lenght0]) == Joined([call],
        if lenght == 0 then Fed(Now(), []) else Feed(Now(), packet[data..data + lenght]))
    {
      hide Feed;
      ghost var d := packet[data..data + lenght0];
      DataFed(Now(), d);
      lenght := lenght0;
      var available;
      if lenght < total - processed {
        available := lenght;
        processed := processed + lenght;
        lenght := 0;
      } else {
        available := total - processed;
        lenght := lenght - available;
        processed := total;
        state := COM_ID;
        assert d[..lenght] == packet[data..data + lenght];
        HeaderFed(Now(), packet[data..data + lenght]);
      }
      assert d[..available] == packet[data..data + available];
      call := Call(id, total, packet[data..data + available]);
      calls := calls + [call];
    }

    /** com_process_data for a packet of at least one byte, without a timeout. */
    method ProcessData(packet: seq<bv8>)
      requires Valid() && 0 < |packet| <= 255
      modifies this
      ensures Valid()
      ensures Fed(Now(), calls) == Joined(old(calls), Feed(old(Now()), packet))
    {
      hide Feed, Joined;
      ghost var f, before := Feed(Now(), packet), calls;
      var data, lenght := 0, |packet|;
      assert packet[data..data + lenght] == packet;
      var again := true;
      while again
        invariant data + lenght <= |packet| && (again ==> lenght > 0)
        invariant Valid()
        invariant again ==> Joined(before, f) == Joined(calls, Feed(Now(), packet[data..data + lenght]))
        invariant !again ==> Joined(before, f) == Fed(Now(), calls)
        decreases lenght, again
      {
        data, lenght := ReadHeader(packet, data, lenght);
        HeaderFed(Now(), packet[data..data + lenght]);
        if state == COM_DATA {
          ghost var c := calls;
          var call;
          lenght, call := TakeData(packet, data, lenght);
          JoinedTwice(c, [call], if lenght == 0 then Fed(Now(), []) else Feed(Now(), packet[data..data + lenght]));
        }
        JoinedTwice(calls, [], Fed(Now(), []));
        again := lenght != 0;
      }
    }
  }

  lemma JoinedTwice(a: seq<Call>, b: seq<Call>, f: Fed)
    ensures Joined(a, Joined(b, f)) == Joined(a + b, f)
    ensures f.calls == [] ==> Joined(a, f) == Fed(f.parser, a)
    ensures f.calls == [] ==> Joined(a + b, f) == Fed(f.parser, a + b)
  {
    assert a + (b + f.calls) == a + b + f.calls;
  }

  lemma HeaderTaken(p: Parser, s: seq<bv8>, at: nat, n: nat)
    requires Proper(p) && p.state < COM_DATA && 0 < n && at + n <= |s|
    ensures Feed(p, s[at..at + n]) == Feed(HeaderByte(p, s[at]), s[at + 1..at + n])
  {
    hide Feed, HeaderByte;
    HeaderFed(p, s[at..at + n]);
    assert s[at..at + n][1..] == s[at + 1..at + n];
  }

  lemma NextParser(p: Parser, b: bv8)
    requires p.state < COM_DATA
    ensures p.state == 0 ==> HeaderByte(p, b) == Parser(1, b, p.total, p.processed)
    ensures p.state == 1 ==> HeaderByte(p, b) == Parser(2, p.id, ToNat(b), p.processed)
    ensures p.state == 2 ==> HeaderByte(p, b) == Parser(3, p.id, p.total + 256 * ToNat(b), p.processed)
    ensures p.state == 3 ==> HeaderByte(p, b) == Parser(4, p.id, p.total + 65536 * ToNat(b), 0)
  {
  }

  lemma {:induction false} HeaderFed(p: Parser, d: seq<bv8>)
    requires Proper(p)
    ensures p.state < COM_DATA && d != [] ==> Feed(p, d) == Feed(HeaderByte(p, d[0]), d[1..])
    ensures p.state < COM_DATA && d == [] ==> Feed(p, d) == Fed(p, [])
  {
  }

  lemma {:induction false} DataFed(p: Parser, d: seq<bv8>)
    requires Proper(p) && p.state == COM_DATA
    ensures |d| < p.total - p.processed ==>
      Feed(p, d) == Fed(p.(processed := p.processed + |d|), [Call(p.id, p.total, d)])
    ensures |d| >= p.total - p.processed ==>
      var k := p.total - p.processed;
      Feed(p, d) == Joined([Call(p.id, p.total, d[..k])],
        Feed(p.(state := COM_ID, processed := p.total), d[..|d| - k]))
  {
  }

  // ----- what the calls of com_exec amount to -----

  /** The commands still to be delivered, the first of them up to `done`. */
  datatype Delivery = Delivery(done: seq<bv8>, commands: seq<Command>) | Wrong

  /** One call carries the id and the size of the next command and goes on with its data. */
  function Deliver(x: Delivery, c: Call): Delivery {
    if x.Wrong? || x.commands == [] then Wrong
    else
      var next, done := x.commands[0], x.done + c.data;
      if c.id != next.id || c.total != |next.payload| || !(done <= next.payload) then Wrong
      else if done == next.payload then Delivery([], x.commands[1..])
      else Delivery(done, x.commands)
  }

  function DeliverAll(x: Delivery, calls: seq<Call>): Delivery
    decreases |calls|
  {
    if calls == [] then x else DeliverAll(Deliver(x, calls[0]), calls[1..])
  }

  lemma {:induction false} DeliverAppend(x: Delivery, a: seq<Call>, b: seq<Call>)
    ensures DeliverAll(x, a + b) == DeliverAll(DeliverAll(x, a), b)
    decreases |a|
  {
    if a == [] {
      assert a + b == b;
    } else {
      hide Deliver;
      assert (a + b)[0] == a[0] && (a + b)[1..] == a[1..] + b;
      DeliverAppend(Deliver(x, a[0]), a[1..], b);
    }
  }

  /** The data of all commands. */
  function Payloads(cs: seq<Command>): seq<bv8> {
    if cs == [] then [] else cs[0].payload + Payloads(cs[1..])
  }

  /** The data that all calls carry. */
  function Pieces(calls: seq<Call>): seq<bv8> {
    if calls == [] then [] else calls[0].data + Pieces(calls[1..])
  }

  /** The call is one of those for the command. */
  predicate Carries(call: Call, c: Command) {
    call.id == c.id && call.total == |c.payload|
  }

  /** What it means that all commands have been delivered: the calls carry the data of the
    commands in order, each call has id and size of a command, and no command is left out. */
  lemma DeliveredIs(cs: seq<Command>, calls: seq<Call>)
    requires DeliverAll(Delivery([], cs), calls) == Delivery([], [])
    ensures Pieces(calls) == Payloads(cs)
    ensures forall call | call in calls :: exists c :: c in cs && call.id == c.id && call.total == |c.payload|
    ensures forall c | c in cs :: exists call :: call in calls && call.id == c.id && call.total == |c.payload|
  {
    DeliveredData([], cs, calls);
    assert [] + Pieces(calls) == Pieces(calls);
    forall call | call in calls
      ensures exists c :: c in cs && call.id == c.id && call.total == |c.payload|
    {
      var c := CommandOf([], cs, calls, call);
      assert c in cs;
    }
    forall c | c in cs
      ensures exists call :: call in calls && call.id == c.id && call.total == |c.payload|
    {
      var call := CallFor([], cs, calls, c);
      assert call in calls;
    }
  }

  /** The first call goes on with the first command. */
  lemma {:induction false} FirstDelivered(done: seq<bv8>, cs: seq<Command>, calls: seq<Call>)
    requires DeliverAll(Delivery(done, cs), calls) == Delivery([], []) && calls != []
    ensures cs != [] && Carries(calls[0], cs[0]) && done + calls[0].data <= cs[0].payload
    ensures
      var whole := done + calls[0].data == cs[0].payload;
      DeliverAll(Delivery(if whole then [] else done + calls[0].data, if whole then cs[1..] else cs), calls[1..])
        == Delivery([], [])
  {
    NotWrong(Deliver(Delivery(done, cs), calls[0]), calls[1..]);
  }

  lemma {:induction false} NotWrong(x: Delivery, calls: seq<Call>)
    ensures DeliverAll(x, calls) == Delivery([], []) ==> x.Delivery?
  {
    WrongStays(calls);
  }

  lemma {:induction false} DeliveredData(done: seq<bv8>, cs: seq<Command>, calls: seq<Call>)
    requires DeliverAll(Delivery(done, cs), calls) == Delivery([], [])
    ensures done + Pieces(calls) == Payloads(cs)
    decreases |calls|
  {
    if calls != [] {
      FirstDelivered(done, cs, calls);
      hide Deliver, DeliverAll, Carries;
      var part, rest := done + calls[0].data, Pieces(calls[1..]);
      assert done + Pieces(calls) == part + rest;
      if part == cs[0].payload {
        DeliveredData([], cs[1..], calls[1..]);
        assert [] + rest == rest;
      } else {
        DeliveredData(part, cs, calls[1..]);
      }
    }
  }

  lemma {:induction false} CommandOf(done: seq<bv8>, cs: seq<Command>, calls: seq<Call>, call: Call) returns (c: Command)
    requires DeliverAll(Delivery(done, cs), calls) == Delivery([], []) && call in calls
    ensures c in cs && Carries(call, c)
    decreases |calls|
  {
    FirstDelivered(done, cs, calls);
    hide Deliver, DeliverAll;
    if call == calls[0] {
      c := cs[0];
    } else {
      var part := done + calls[0].data;
      var whole := part == cs[0].payload;
      assert call in calls[1..];
      c := CommandOf(if whole then [] else part, if whole then cs[1..] else cs, calls[1..], call);
    }
  }

  lemma {:induction false} CallFor(done: seq<bv8>, cs: seq<Command>, calls: seq<Call>, c: Command) returns (call: Call)
    requires DeliverAll(Delivery(done, cs), calls) == Delivery([], []) && c in cs
    ensures call in calls && Carries(call, c)
    decreases |calls|
  {
    NothingDelivered(done, cs);
    hide Deliver, DeliverAll;
    assert calls != [];
    FirstDelivered(done, cs, calls);
    if c == cs[0] {
      call := calls[0];
    } else {
      var part := done + calls[0].data;
      var whole := part == cs[0].payload;
      assert c in cs[1..];
      call := CallFor(if whole then [] else part, if whole then cs[1..] else cs, calls[1..], c);
    }
  }

  lemma NothingDelivered(done: seq<bv8>, cs: seq<Command>)
    ensures DeliverAll(Delivery(done, cs), []) == Delivery(done, cs)
  {
  }

  lemma {:induction false} WrongStays(calls: seq<Call>)
    ensures DeliverAll(Wrong, calls) == Wrong
  {
    if calls != [] {
      WrongStays(calls[1..]);
    }
  }

  lemma DeliverOne(x: Delivery, c: Call)
    ensures DeliverAll(x, [c]) == Deliver(x, c)
  {
    assert [c][1..] == [];
  }

  /** The parser stands where the delivery does. */
  ghost predicate InStep(p: Parser, x: Delivery) {
    && Proper(p) && x.Delivery?
    && (p.state < COM_DATA ==> x.done == [])
    && (p.state > COM_ID ==>
      && x.commands != [] && p.id == x.commands[0].id && |x.commands[0].payload| < 0x100_0000
      && var n := |x.commands[0].payload|;
         && (p.state == 2 ==> p.total == n % 256)
         && (p.state == 3 ==> p.total == n % 65536)
         && (p.state == COM_DATA ==> p.total == n && p.processed == |x.done| && x.done <= x.commands[0].payload))
  }

  /** The bytes that are still to come for a delivery. */
  function Left(p: Parser, x: Delivery): seq<bv8>
    requires Proper(p) && x.Delivery?
  {
    if p.state == COM_ID then PrintAll(x.commands)
    else if x.commands == [] then []
    else
      var received := if p.state < COM_DATA then p.state else 4 + |x.done|;
      (if received <= |Print(x.commands[0])| then Print(x.commands[0])[received..] else []) + PrintAll(x.commands[1..])
  }

  /** How many of them belong to the command at hand. */
  function LeftOfFirst(p: Parser, x: Delivery): int
    requires x.Delivery?
  {
    if x.commands == [] then 0
    else 4 + |x.commands[0].payload| - if p.state < COM_DATA then p.state else 4 + |x.done|
  }

  /** Of the next bytes, `first` belong to the command at hand: no packet may carry bytes
    after the end of a command that has data. */
  ghost predicate Aligned(commands: seq<Command>, first: int, size: nat)
    decreases |commands|
  {
    size <= first || (commands != [] && commands[0].payload == []
      && Aligned(commands[1..], if |commands| > 1 then 4 + |commands[1].payload| else 0, size - first))
  }

  lemma PrintParts(c: Command)
    ensures
      var n, s := |c.payload|, Print(c);
      && s[0] == c.id && s[1] == ToByte(n % 256) && s[2] == ToByte(n / 256 % 256) && s[3] == ToByte(n / 65536 % 256)
      && s[4..] == c.payload
  {
    hide ToByte;
  }

  lemma SizeBytes(c: Command)
    requires |c.payload| < 0x100_0000
    ensures
      var n, s := |c.payload|, Print(c);
      && s[0] == c.id && ToNat(s[1]) == n % 256
      && n % 256 + 256 * ToNat(s[2]) == n % 65536
      && n % 65536 + 65536 * ToNat(s[3]) == n
      && s[4..] == c.payload
  {
    var n := |c.payload|;
    PrintParts(c);
    hide ToByte, ToNat, Print;
    NatOfByte(n % 256);
    NatOfByte(n / 256 % 256);
    NatOfByte(n / 65536 % 256);
    SizeSplit(n);
  }

  lemma SizeSplit(n: nat)
    ensures n % 256 + 256 * (n / 256 % 256) == n % 65536
    ensures n % 65536 + 65536 * (n / 65536) == n
    ensures n < 0x100_0000 ==> n / 65536 % 256 == n / 65536
  {
    var a := n / 256;
    assert n == 256 * a + n % 256;
    var b := a / 256;
    assert a == 256 * b + a % 256;
    assert n == 65536 * b + (256 * (a % 256) + n % 256);
    assert n / 65536 == b;
  }

  ghost predicate Sendable(commands: seq<Command>) {
    forall i: nat | i < |commands| :: |commands[i].payload| < 0x100_0000
  }

  lemma HeaderByteInStep(p: Parser, x: Delivery, b: bv8)
    requires InStep(p, x) && p.state < COM_DATA && x.commands != [] && |x.commands[0].payload| < 0x100_0000
    requires b == Print(x.commands[0])[p.state]
    ensures InStep(HeaderByte(p, b), x) && HeaderByte(p, b).state == p.state + 1
  {
    hide ToNat, Print, HeaderByte;
    SizeBytes(x.commands[0]);
    NextParser(p, b);
    if p.state == 3 {
      assert x.done == [] && x.done <= x.commands[0].payload;
    }
  }

  /** The first of the bytes that are left is the header byte that is waited for. */
  lemma HeaderLeft(p: Parser, x: Delivery, b: bv8)
    requires InStep(p, x) && p.state < COM_DATA && x.commands != []
    requires b == Print(x.commands[0])[p.state]
    ensures Left(p, x) == [b] + Left(HeaderByte(p, b), x)
    ensures LeftOfFirst(HeaderByte(p, b), x) == LeftOfFirst(p, x) - 1
  {
    HeaderCounted(p, x, b);
    InStepParts(p, x);
    NextState(p, b);
    hide InStep, Print, HeaderByte, Left, LeftOfFirst, PrintAll;
    LeftIs(p, x);
    LeftIs(HeaderByte(p, b), x);
    FirstOff(Print(x.commands[0]), p.state, PrintAll(x.commands[1..]));
  }

  lemma NextState(p: Parser, b: bv8)
    requires p.state < COM_DATA
    ensures HeaderByte(p, b).state == p.state + 1
  {
    hide ToNat;
  }

  lemma FirstOff(s: seq<bv8>, i: nat, more: seq<bv8>)
    requires i < |s|
    ensures s[i..] + more == [s[i]] + (s[i + 1..] + more)
  {
    assert s[i..] == [s[i]] + s[i + 1..];
  }

  lemma FirstOfSum(d: seq<bv8>, rest: seq<bv8>, b: bv8, l: seq<bv8>)
    requires d != [] && d + rest == [b] + l
    ensures d[0] == b && d[1..] + rest == l
  {
    assert (d + rest)[0] == d[0] && (d + rest)[1..] == d[1..] + rest;
    assert ([b] + l)[0] == b && ([b] + l)[1..] == l;
  }

  lemma LeftIs(p: Parser, x: Delivery)
    requires Proper(p) && x.Delivery? && x.done == [] && x.commands != []
    ensures Left(p, x) == Print(x.commands[0])[p.state..] + PrintAll(x.commands[1..])
  {
    hide Print;
  }

  /** The next byte of a packet is the header byte that is waited for. */
  lemma HeaderByteTaken(p: Parser, x: Delivery, d: seq<bv8>, rest: seq<bv8>)
    requires InStep(p, x) && p.state < COM_DATA && x.commands != [] && d != [] && d + rest == Left(p, x)
    ensures d[0] == Print(x.commands[0])[p.state]
    ensures d[1..] + rest == Left(HeaderByte(p, d[0]), x)
    ensures LeftOfFirst(HeaderByte(p, d[0]), x) == LeftOfFirst(p, x) - 1
  {
    var b := Print(x.commands[0])[p.state];
    hide *;
    HeaderLeft(p, x, b);
    FirstOfSum(d, rest, b, Left(HeaderByte(p, b), x));
  }

  lemma SomeLeft(p: Parser, x: Delivery, d: seq<bv8>, rest: seq<bv8>)
    requires InStep(p, x) && d != [] && d + rest == Left(p, x) && Sendable(x.commands)
    ensures x.commands != [] && |x.commands[0].payload| < 0x100_0000
  {
    assert |d + rest| > 0;
  }

  lemma StillAligned(commands: seq<Command>, first: int, size: nat)
    requires Aligned(commands, first, size) && size > 0 && commands != []
    ensures Aligned(commands, first - 1, size - 1)
  {
  }

  /** A piece of data, and what of the stream it leaves. */
  lemma DataInStep(p: Parser, x: Delivery, d: seq<bv8>, rest: seq<bv8>)
    requires InStep(p, x) && Sendable(x.commands) && p.state == COM_DATA && d + rest == Left(p, x)
    requires Aligned(x.commands, LeftOfFirst(p, x), |d|)
    ensures p.processed <= p.total
    ensures |d| < p.total - p.processed ==>
      var p', x' := p.(processed := p.processed + |d|), Deliver(x, Call(p.id, p.total, d));
      InStep(p', x') && rest == Left(p', x') && x'.commands == x.commands
    ensures |d| >= p.total - p.processed ==>
      var k := p.total - p.processed;
      var p', x' := p.(state := COM_ID, processed := p.total), Deliver(x, Call(p.id, p.total, d[..k]));
      && InStep(p', x') && d[..|d| - k] + rest == Left(p', x') && x'.commands == x.commands[1..]
      && Aligned(x'.commands, LeftOfFirst(p', x'), |d| - k)
  {
    var more := PrintAll(x.commands[1..]);
    var k := p.total - p.processed;
    InStepParts(p, x);
    DataCounted(p, x);
    var data := DataOfFirst(p, x);
    DataLeft(p, x);
    hide Left, PrintAll, Deliver, Aligned, LeftOfFirst, InStep, DataOfFirst, Sendable;
    if |d| < k {
      PartLeft(p, x, d, rest, data, more);
    } else {
      TakeFromBoth(d, rest, data, more);
      DoneLeft(p, x, d, rest, k, more);
    }
  }

  /** The data of the command at hand that is still to come. */
  function DataOfFirst(p: Parser, x: Delivery): (data: seq<bv8>)
    requires InStep(p, x) && p.state == COM_DATA
    ensures |data| == p.total - p.processed
  {
    x.commands[0].payload[|x.done|..]
  }

  lemma TakeFromBoth(d: seq<bv8>, rest: seq<bv8>, data: seq<bv8>, more: seq<bv8>)
    requires d + rest == data + more
    ensures |d| >= |data| ==> d[..|data|] == data
    ensures |d| <= |data| ==> d == data[..|d|] && rest == data[|d|..] + more
  {
    assert (d + rest)[..|d|] == d && (d + rest)[|d|..] == rest;
    assert (data + more)[..|data|] == data;
    if |d| >= |data| {
      assert (d + rest)[..|data|] == d[..|data|];
    }
    if |d| <= |data| {
      assert (data + more)[..|d|] == data[..|d|] && (data + more)[|d|..] == data[|d|..] + more;
    }
  }

  /** Less than the rest of the data. */
  lemma PartLeft(p: Parser, x: Delivery, d: seq<bv8>, rest: seq<bv8>, data: seq<bv8>, more: seq<bv8>)
    requires InStep(p, x) && p.state == COM_DATA && |d| < |data| && data == DataOfFirst(p, x)
    requires more == PrintAll(x.commands[1..]) && d + rest == data + more
    ensures
      var p', x' := p.(processed := p.processed + |d|), Deliver(x, Call(p.id, p.total, d));
      InStep(p', x') && rest == Left(p', x') && x'.commands == x.commands
  {
    hide Left, Print, PrintAll, InStep, Deliver, DataOfFirst;
    TakeFromBoth(d, rest, data, more);
    PartTaken(p, x, d);
    DataLeft(p.(processed := p.processed + |d|), Deliver(x, Call(p.id, p.total, d)));
  }

  lemma PartTaken(p: Parser, x: Delivery, d: seq<bv8>)
    requires InStep(p, x) && p.state == COM_DATA && |d| < |DataOfFirst(p, x)| && d == DataOfFirst(p, x)[..|d|]
    ensures
      var p', x' := p.(processed := p.processed + |d|), Deliver(x, Call(p.id, p.total, d));
      InStep(p', x') && x' == Delivery(x.done + d, x.commands) && DataOfFirst(p', x') == DataOfFirst(p, x)[|d|..]
  {
    var c, n := x.commands[0], |x.done|;
    assert x.done == c.payload[..n];
    SliceOfSlice(c.payload, n, |c.payload|, 0, |d|);
    SliceOfSlice(c.payload, n, |c.payload|, |d|, |c.payload| - n);
    assert c.payload[n..|c.payload|] == c.payload[n..];
    assert c.payload[..n] + c.payload[n..n + |d|] == c.payload[..n + |d|];
  }

  lemma DataLeft(p: Parser, x: Delivery)
    requires InStep(p, x) && p.state == COM_DATA
    ensures Left(p, x) == DataOfFirst(p, x) + PrintAll(x.commands[1..])
    ensures LeftOfFirst(p, x) == p.total - p.processed
  {
    var c := x.commands[0];
    assert Print(c)[4 + |x.done|..] == c.payload[|x.done|..];
  }

  /** At the end of the data: either nothing more is in the packet, or there was no data. */
  lemma DoneLeft(p: Parser, x: Delivery, d: seq<bv8>, rest: seq<bv8>, k: nat, more: seq<bv8>)
    requires InStep(p, x) && p.state == COM_DATA && k == p.total - p.processed <= |d|
    requires more == PrintAll(x.commands[1..]) && d[..k] == DataOfFirst(p, x) && d + rest == d[..k] + more
    requires Aligned(x.commands, LeftOfFirst(p, x), |d|)
    ensures
      var p', x' := p.(state := COM_ID, processed := p.total), Deliver(x, Call(p.id, p.total, d[..k]));
      && InStep(p', x') && d[..|d| - k] + rest == Left(p', x') && x'.commands == x.commands[1..]
      && Aligned(x'.commands, LeftOfFirst(p', x'), |d| - k)
  {
    var c := x.commands[0];
    var p', x' := p.(state := COM_ID, processed := p.total), Deliver(x, Call(p.id, p.total, d[..k]));
    assert x.done + d[..k] == c.payload;
    assert x' == Delivery([], x.commands[1..]);
    hide Print;
    assert d + rest == d[..k] + (d[k..] + rest);
    assert (d[..k] + (d[k..] + rest))[k..] == d[k..] + rest && (d[..k] + more)[k..] == more;
    if |d| > k {
      assert k == 0;
    }
    assert d[..|d| - k] == d[k..];
  }

  // ----- packets -----

  function FirstSize(commands: seq<Command>): nat {
    if commands == [] then 0 else 4 + |commands[0].payload|
  }

  /** The commands that are left after some more bytes, and how much is left of the first. */
  function Skip(commands: seq<Command>, first: int, size: nat): (seq<Command>, int)
    decreases |commands|
  {
    if size < first then (commands, first - size)
    else if commands == [] || first < 0 then ([], 0)
    else Skip(commands[1..], FirstSize(commands[1..]), size - first)
  }

  /** Feeding a piece of the stream delivers what it carries. */
  lemma {:induction false} FeedDelivers(p: Parser, x: Delivery, d: seq<bv8>, rest: seq<bv8>)
    requires InStep(p, x) && Sendable(x.commands) && d + rest == Left(p, x)
    requires Aligned(x.commands, LeftOfFirst(p, x), |d|)
    ensures
      var f := Feed(p, d);
      var x' := DeliverAll(x, f.calls);
      && InStep(f.parser, x') && rest == Left(f.parser, x') && Sendable(x'.commands)
      && (x'.commands, LeftOfFirst(f.parser, x')) == Skip(x.commands, LeftOfFirst(p, x), |d|)
    decreases |d|, p.state == COM_DATA
  {
    hide InStep, Left, Aligned, Deliver, Feed, HeaderByte, LeftOfFirst, Sendable, Skip;
    InStepParts(p, x);
    HeaderFed(p, d);
    if p.state < COM_DATA {
      if d == [] {
        assert [] + rest == rest;
        SkipNothing(p, x);
      } else {
        SomeLeft(p, x, d, rest);
        HeaderByteTaken(p, x, d, rest);
        HeaderByteInStep(p, x, d[0]);
        HeaderCounted(p, x, d[0]);
        StillAligned(x.commands, LeftOfFirst(p, x), |d|);
        SkipOne(x.commands, LeftOfFirst(p, x), |d|);
        FeedDelivers(HeaderByte(p, d[0]), x, d[1..], rest);
      }
    } else {
      DataFed(p, d);
      DataInStep(p, x, d, rest);
      var k := p.total - p.processed;
      DataCounted(p, x);
      if |d| < k {
        var p' := p.(processed := p.processed + |d|);
        var c := Call(p.id, p.total, d);
        DeliverOne(x, c);
        InStepParts(p', Deliver(x, c));
        DataCounted(p', Deliver(x, c));
        SkipFew(x.commands, k, |d|);
      } else {
        var p' := p.(state := COM_ID, processed := p.total);
        var c := Call(p.id, p.total, d[..k]);
        var x' := Deliver(x, c);
        SendableRest(x.commands);
        InStepParts(p', x');
        IdleCounted(p', x');
        SkipFirst(x.commands, k, |d|);
        FeedDelivers(p', x', d[..|d| - k], rest);
        DeliverOne(x, c);
        DeliverAppend(x, [c], Feed(p', d[..|d| - k]).calls);
      }
    }
  }

  lemma InStepParts(p: Parser, x: Delivery)
    requires InStep(p, x)
    ensures Proper(p) && x.Delivery? && (p.state == COM_DATA ==> x.commands != []) && (p.state < COM_DATA ==> x.done == [])
  {
  }

  lemma HeaderCounted(p: Parser, x: Delivery, b: bv8)
    requires InStep(p, x) && p.state < COM_DATA && x.commands != []
    ensures LeftOfFirst(HeaderByte(p, b), x) == LeftOfFirst(p, x) - 1 && LeftOfFirst(p, x) > 0
  {
    hide ToNat;
  }

  lemma DataCounted(p: Parser, x: Delivery)
    requires InStep(p, x) && p.state == COM_DATA
    ensures LeftOfFirst(p, x) == p.total - p.processed >= 0
  {
  }

  lemma IdleCounted(p: Parser, x: Delivery)
    requires x.Delivery? && p.state == COM_ID
    ensures LeftOfFirst(p, x) == FirstSize(x.commands)
  {
  }

  lemma SkipNothing(p: Parser, x: Delivery)
    requires InStep(p, x) && p.state < COM_DATA
    ensures (x.commands, LeftOfFirst(p, x)) == Skip(x.commands, LeftOfFirst(p, x), 0)
  {
  }

  lemma SkipOne(commands: seq<Command>, first: int, size: nat)
    requires first > 0 && size > 0
    ensures Skip(commands, first, size) == Skip(commands, first - 1, size - 1)
  {
  }

  lemma SkipFew(commands: seq<Command>, first: int, size: nat)
    requires size < first
    ensures Skip(commands, first, size) == (commands, first - size)
  {
  }

  lemma SkipFirst(commands: seq<Command>, first: int, size: nat)
    requires 0 <= first <= size && commands != []
    ensures Skip(commands, first, size) == Skip(commands[1..], FirstSize(commands[1..]), size - first)
  {
  }

  lemma SendableRest(commands: seq<Command>)
    requires Sendable(commands) && commands != []
    ensures Sendable(commands[1..])
  {
  }

  function Concat(packets: seq<seq<bv8>>): seq<bv8> {
    if packets == [] then [] else packets[0] + Concat(packets[1..])
  }

  function FeedAll(p: Parser, packets: seq<seq<bv8>>): (f: Fed)
    requires Proper(p)
    ensures Proper(f.parser) && (packets != [] && f.parser.state == COM_DATA ==> f.parser.processed < f.parser.total)
    decreases |packets|
  {
    if packets == [] then Fed(p, [])
    else
      var f := Feed(p, packets[0]);
      Joined(f.calls, FeedAll(f.parser, packets[1..]))
  }

  /** Packets are not empty, and none goes on after the end of a command that has data. */
  ghost predicate AlignedAll(commands: seq<Command>, first: int, packets: seq<seq<bv8>>)
    decreases |packets|
  {
    packets != [] ==>
      && packets[0] != [] && Aligned(commands, first, |packets[0]|)
      && var (commands', first') := Skip(commands, first, |packets[0]|);
         AlignedAll(commands', first', packets[1..])
  }

  lemma {:induction false} PacketsDeliver(p: Parser, x: Delivery, packets: seq<seq<bv8>>)
    requires InStep(p, x) && Sendable(x.commands) && Concat(packets) == Left(p, x)
    requires AlignedAll(x.commands, LeftOfFirst(p, x), packets)
    ensures
      var f := FeedAll(p, packets);
      var x' := DeliverAll(x, f.calls);
      InStep(f.parser, x') && Left(f.parser, x') == []
    decreases |packets|
  {
    hide InStep, Left, Aligned, Deliver, Feed, LeftOfFirst, Sendable, Skip;
    InStepParts(p, x);
    if packets != [] {
      var d := packets[0];
      var f := Feed(p, d);
      var x' := DeliverAll(x, f.calls);
      FeedDelivers(p, x, d, Concat(packets[1..]));
      InStepParts(f.parser, x');
      PacketsDeliver(f.parser, x', packets[1..]);
      DeliverAppend(x, f.calls, FeedAll(f.parser, packets[1..]).calls);
    }
  }

  lemma NothingLeft(p: Parser, x: Delivery)
    requires InStep(p, x) && Left(p, x) == [] && (p.state == COM_DATA ==> p.processed < p.total)
    ensures p.state == COM_ID && x == Delivery([], [])
  {
    if x.commands != [] {
      SomethingLeft(p, x);
    }
  }

  lemma SomethingLeft(p: Parser, x: Delivery)
    requires InStep(p, x) && x.commands != [] && (p.state == COM_DATA ==> p.processed < p.total)
    ensures Left(p, x) != []
  {
    if p.state == COM_DATA {
      DataLeft(p, x);
    } else {
      LeftIs(p, x);
      hide Left;
    }
  }

  /** However a stream of commands is cut into packets, com_exec gets to see every command
    with its id, its size and its data, piece by piece and in order, and nothing else. */
  lemma FramingIsPacketIndependent(p: Parser, commands: seq<Command>, packets: seq<seq<bv8>>)
    requires Proper(p) && p.state == COM_ID && Sendable(commands)
    requires Concat(packets) == PrintAll(commands) && AlignedAll(commands, FirstSize(commands), packets)
    ensures
      var f := FeedAll(p, packets);
      f.parser.state == COM_ID && DeliverAll(Delivery([], commands), f.calls) == Delivery([], [])
  {
    var x := Delivery([], commands);
    IdleCounted(p, x);
    PacketsDeliver(p, x, packets);
    var f := FeedAll(p, packets);
    NothingLeft(f.parser, DeliverAll(x, f.calls));
  }
}
