/** Writing a piece of the FRAM over the serial line: command_set_fram
  (Code/src/Communication/Commands.c) behind the parser, and the sender
  (Utility/transfer_fram/transfer_fram/main.cpp). */
module Streaming {
  import opened Bytes
  import opened Memory
  import opened Device
  import opened Framing

  const COM_OK: bv8 := 0x00
  const COM_ERR_NOT_INIT: bv8 := 0x01
  const COM_SET_FRAM: bv8 := 0x20

  // ----- the sender -----

  /** Three bytes of address, low byte first, and the data. */
  function SlicePayload(pos: nat, data: seq<bv8>): (p: seq<bv8>)
    ensures |p| == 3 + |data|
  {
    [ToByte(pos % 256), ToByte(pos / 256 % 256), ToByte(pos / 65536 % 256)] + data
  }

  /** send_slice for a slice that fits into one command. */
  method SendSlice(pos: nat, data: array<bv8>) returns (command: array<bv8>)
    requires data.Length <= 0xFF_FFFF - 3
    ensures fresh(command) && command[..] == Print(Command(COM_SET_FRAM, SlicePayload(pos, data[..])))
    ensures
      var s := command[..];
      && |s| == 7 + data.Length && s[0] == 0x20 && s[7..] == data[..]
      && ToNat(s[1]) + 256 * ToNat(s[2]) + 65536 * ToNat(s[3]) == 3 + data.Length
      && ToNat(s[4]) + 256 * ToNat(s[5]) + 65536 * ToNat(s[6]) == pos % 16777216
  {
    hide ToByte, ToNat;
    var comSize := 3 + data.Length;
    command := new bv8[1 + 3 + comSize](_ => 0);
    PutSlice(command, comSize, pos);
    AppendData(command, data);
    assert command[..][..7] == command[..7] && command[..][7..] == command[7..];
    hide *;
    SliceIs(pos, data[..], command[..]);
    SliceHas(pos, data[..]);
  }

  /** Its first assignments: the command, its size and the position. */
  method PutSlice(command: array<bv8>, comSize: nat, pos: nat)
    requires command.Length >= 7
    modifies command
    ensures command[..7] ==
      [COM_SET_FRAM, ToByte(comSize % 256), ToByte(comSize / 256 % 256), ToByte(comSize / 65536 % 256),
       ToByte(pos % 256), ToByte(pos / 256 % 256), ToByte(pos / 65536 % 256)]
  {
    hide ToByte;
    command[0] := COM_SET_FRAM;
    command[1] := ToByte(comSize % 256);
    command[2] := ToByte(comSize / 256 % 256);
    command[3] := ToByte(comSize / 65536 % 256);
    command[4] := ToByte(pos % 256);
    command[5] := ToByte(pos / 256 % 256);
    command[6] := ToByte(pos / 65536 % 256);
  }

  lemma SliceHas(pos: nat, data: seq<bv8>)
    requires |data| <= 0xFF_FFFF - 3
    ensures
      var s := Print(Command(COM_SET_FRAM, SlicePayload(pos, data)));
      && |s| == 7 + |data| && s[0] == 0x20 && s[7..] == data
      && ToNat(s[1]) + 256 * ToNat(s[2]) + 65536 * ToNat(s[3]) == 3 + |data|
      && ToNat(s[4]) + 256 * ToNat(s[5]) + 65536 * ToNat(s[6]) == pos % 16777216
  {
    hide ToByte, ToNat, Header;
    HeaderIs(COM_SET_FRAM, 3 + |data|);
    ThreeBytesAre(pos);
  }

  method AppendData(command: array<bv8>, data: array<bv8>)
    requires command.Length == 7 + data.Length && command != data
    modifies command
    ensures command[..7] == old(command[..7]) && command[7..] == data[..]
  {
    for i := 0 to data.Length
      invariant command[..7] == old(command[..7]) && command[7..7 + i] == data[..i]
    {
      command[7 + i] := data[i];
    }
    assert command[7..7 + data.Length] == command[7..] && data[..data.Length] == data[..];
  }

  lemma SliceIs(pos: nat, data: seq<bv8>, s: seq<bv8>)
    requires |s| == 7 + |data| && s[7..] == data
    requires
      var n := 3 + |data|;
      s[..7] == [COM_SET_FRAM, ToByte(n % 256), ToByte(n / 256 % 256), ToByte(n / 65536 % 256),
                 ToByte(pos % 256), ToByte(pos / 256 % 256), ToByte(pos / 65536 % 256)]
    ensures s == Print(Command(COM_SET_FRAM, SlicePayload(pos, data)))
  {
    hide ToByte;
    var n := 3 + |data|;
    var header := [COM_SET_FRAM, ToByte(n % 256), ToByte(n / 256 % 256), ToByte(n / 65536 % 256)];
    var address := [ToByte(pos % 256), ToByte(pos / 256 % 256), ToByte(pos / 65536 % 256)];
    assert s == s[..7] + s[7..];
    assert s[..7] == header + address;
    assert header + address + data == header + (address + data);
  }

  // ----- the device -----

  /** The value of the address bytes that are there. */
  function AddrOf(received: seq<bv8>): nat {
    (if |received| > 0 then ToNat(received[0]) else 0)
    + (if |received| > 1 then 256 * ToNat(received[1]) else 0)
    + (if |received| > 2 then 65536 * ToNat(received[2]) else 0)
  }

  /** Address and data lie in the FRAM. */
  predicate InFram(received: seq<bv8>) {
    |received| >= 3 ==> AddrOf(received) + |received| - 3 <= FRAM_BYTE_SIZE
  }

  /** The FRAM when so much of a command has been received. */
  function FramAfter(m: Image, received: seq<bv8>): Image
    requires InFram(received)
  {
    if |received| < 3 then m else Splice(m, AddrOf(received), received[3..])
  }

  class Writer {
    const w: Wallet
    var comPos: nat
    var comParameter: nat
    var started: bool
    var sent: seq<bv8>  // the ids of the replies

    ghost predicate Valid()
      reads this
    {
      w.Valid()
    }

    constructor (wallet: Wallet)
      requires wallet.Valid()
      ensures Valid() && w == wallet && comPos == comParameter == 0 && !started && sent == []
    {
      w, comPos, comParameter, started, sent := wallet, 0, 0, false, [];
    }

    /** Of a command of so many bytes, these have been received. */
    ghost predicate Received(m: Image, received: seq<bv8>)
      reads this, w.fram
      requires Valid()
    {
      && InFram(received) && comPos == |received| && comParameter == AddrOf(received)
      && w.fram[..] == FramAfter(m, received)
    }

    /** The first loop of command_set_fram: address bytes go to COM_PARAMETER. */
    method TakeAddress(data: seq<bv8>, ghost received: seq<bv8>) returns (at: nat)
      requires comPos == |received| && comParameter == AddrOf(received)
      modifies `comPos, `comParameter
      ensures at <= |data| && comPos == |received| + at && comParameter == AddrOf(received + data[..at])
      ensures comPos > 2 || at == |data|
      ensures comPos > 3 ==> at == 0
    {
      hide ToNat;
      at := 0;
      assert received + data[..0] == received;
      while comPos <= 2 && at < |data|
        invariant at <= |data| && comPos == |received| + at && comParameter == AddrOf(received + data[..at])
        invariant at > 0 ==> comPos <= 3
      {
        OneMoreAddressByte(received + data[..at], data[at]);
        assert received + data[..at + 1] == received + data[..at] + [data[at]];
        comParameter := comParameter + ToNat(data[at]) * (if comPos == 0 then 1 else if comPos == 1 then 256 else 65536);
        at := at + 1;
        comPos := comPos + 1;
      }
    }

    /** command_set_fram on one piece of the command. */
    method SetFram(c: Call, ghost m: Image, ghost received: seq<bv8>)
      requires Valid() && Received(m, received) && InFram(received + c.data)
      requires |received| + |c.data| <= c.total && |c.data| <= 255
      modifies this, w.fram, w`log
      ensures started == old(started) && w.fram[..] == FramAfter(m, received + c.data)
      ensures if |received| + |c.data| == c.total
        then comPos == comParameter == 0 && sent == old(sent) + [COM_OK]
        else Received(m, received + c.data) && sent == old(sent)
    {
      hide AddrOf, Splice, FramAfter, ApplyAll, FramWrites;
      var at := TakeAddress(c.data, received);
      ghost var whole := received + c.data;
      SplitData(received, c.data, at);
      NoDataYet(m, received);
      NoDataYet(m, whole);
      if comPos > 2 {
        var buffer := new bv8[|c.data| - at](i requires 0 <= i < |c.data| - at => c.data[at + i]);
        assert buffer[..] == c.data[at..] && buffer[..buffer.Length] == buffer[..];
        MoreData(m, received, c.data, at);
        w.FramWriteBytes(comParameter + comPos - 3, buffer, buffer.Length);
        comPos := comPos + buffer.Length;
      }
      if comPos == c.total {
        comParameter := 0;
        comPos := 0;
        sent := sent + [COM_OK];
      }
    }

    /** com_exec for COM_SET_FRAM. */
    method ComExec(c: Call, ghost m: Image, ghost received: seq<bv8>)
      requires Valid() && Received(m, received) && InFram(received + c.data) && c.id == COM_SET_FRAM
      requires |received| + |c.data| <= c.total && |c.data| <= 255
      modifies this, w.fram, w`log
      ensures started == old(started)
      ensures !started ==> sent == old(sent) + [COM_ERR_NOT_INIT] && w.fram[..] == old(w.fram[..])
      ensures started ==> w.fram[..] == FramAfter(m, received + c.data)
      ensures started ==> if |received| + |c.data| == c.total
        then comPos == comParameter == 0 && sent == old(sent) + [COM_OK]
        else Received(m, received + c.data) && sent == old(sent)
    {
      if !started {
        sent := sent + [COM_ERR_NOT_INIT];
        return;
      }
      SetFram(c, m, received);
    }
  }

  lemma OneMoreAddressByte(received: seq<bv8>, b: bv8)
    requires |received| <= 2
    ensures AddrOf(received + [b]) ==
      AddrOf(received) + ToNat(b) * (if |received| == 0 then 1 else if |received| == 1 then 256 else 65536)
  {
    hide ToNat;
  }

  lemma AddressKept(received: seq<bv8>, data: seq<bv8>)
    requires |received| >= 3
    ensures AddrOf(received + data) == AddrOf(received)
  {
    hide ToNat;
  }

  lemma SplitData(received: seq<bv8>, data: seq<bv8>, at: nat)
    requires at <= |data|
    ensures received + data == received + data[..at] + data[at..]
    ensures at == |data| ==> received + data == received + data[..at]
    ensures |received| + at >= 3 ==> AddrOf(received + data) == AddrOf(received + data[..at])
  {
    assert data == data[..at] + data[at..];
    assert received + data == received + data[..at] + data[at..];
    if |received| + at >= 3 {
      AddressKept(received + data[..at], data[at..]);
    }
  }

  /** Once the address is complete, the data goes on where it stopped. */
  lemma MoreData(m: Image, received: seq<bv8>, data: seq<bv8>, at: nat)
    requires at <= |data| && |received| + at >= 3 && (|received| + at > 3 ==> at == 0)
    requires InFram(received) && InFram(received + data)
    ensures AddrOf(received + data[..at]) + (|received| + at) - 3 + (|data| - at) <= FRAM_BYTE_SIZE
    ensures Splice(FramAfter(m, received), AddrOf(received + data[..at]) + (|received| + at) - 3, data[at..])
      == FramAfter(m, received + data)
  {
    SplitData(received, data, at);
    var addr := AddrOf(received + data);
    if |received| >= 3 {
      AddressKept(received, data[..at]);
      AddressKept(received, data);
      assert at == 0;
      assert data[0..] == data && (received + data)[3..] == received[3..] + data;
      SpliceTwice(m, addr, received[3..], data);
    } else {
      assert (received + data)[3..] == data[at..];
    }
  }

  lemma NoDataYet(m: Image, received: seq<bv8>)
    requires InFram(received)
    ensures |received| < 3 ==> FramAfter(m, received) == m
  {
  }

  lemma SpliceTwice(m: seq<bv8>, off: nat, a: seq<bv8>, b: seq<bv8>)
    requires off + |a| + |b| <= |m|
    ensures Splice(Splice(m, off, a), off + |a|, b) == Splice(m, off, a + b)
  {
  }

  // ----- a whole slice -----

  /** The address bytes give the position back. */
  lemma AddressOfSlice(pos: nat, data: seq<bv8>)
    requires pos < 0x100_0000
    ensures AddrOf(SlicePayload(pos, data)) == pos && SlicePayload(pos, data)[3..] == data
  {
    hide ToByte, ToNat;
    NatOfByte(pos % 256);
    NatOfByte(pos / 256 % 256);
    NatOfByte(pos / 65536 % 256);
    SizeSplit(pos);
  }

  /** Any beginning of the payload stays in the FRAM if the slice does. */
  lemma BeginningFits(pos: nat, data: seq<bv8>, received: seq<bv8>)
    requires pos + |data| <= FRAM_BYTE_SIZE && received <= SlicePayload(pos, data)
    ensures InFram(received)
  {
    AddressOfSlice(pos, data);
    hide AddrOf;
    if |received| >= 3 {
      var rest := SlicePayload(pos, data)[|received|..];
      assert SlicePayload(pos, data) == received + rest;
      AddressKept(received, rest);
    }
  }

  /** Where the writer stands when the delivery of a single command does. */
  ghost predicate Writing(s: Writer, m: Image, sent0: seq<bv8>, c: Command, x: Delivery)
    requires s.Valid()
    reads s, s.w.fram
  {
    && x.Delivery? && InFram(c.payload)
    && if x.commands == []
       then s.comPos == s.comParameter == 0 && s.sent == sent0 + [COM_OK] && s.w.fram[..] == FramAfter(m, c.payload)
       else x.commands == [c] && s.sent == sent0 && s.Received(m, x.done)
  }

  method ExecOne(s: Writer, call: Call, pos: nat, data: seq<bv8>, ghost m: Image, ghost sent0: seq<bv8>, ghost x: Delivery)
    requires s.Valid() && s.started && pos + |data| <= FRAM_BYTE_SIZE
    requires Writing(s, m, sent0, Command(COM_SET_FRAM, SlicePayload(pos, data)), x)
    requires Deliver(x, call) != Wrong && |call.data| <= 255
    modifies s, s.w.fram, s.w`log
    ensures s.started && Writing(s, m, sent0, Command(COM_SET_FRAM, SlicePayload(pos, data)), Deliver(x, call))
  {
    var received := NextPiece(s, m, sent0, pos, data, x, call);
    hide Writing, Deliver, SlicePayload, AddrOf, FramAfter;
    WritingFits(s, m, sent0, Command(COM_SET_FRAM, SlicePayload(pos, data)), x);
    s.ComExec(call, m, received);
    PieceTaken(s, m, sent0, Command(COM_SET_FRAM, SlicePayload(pos, data)), x, call);
  }

  lemma WritingFits(s: Writer, m: Image, sent0: seq<bv8>, c: Command, x: Delivery)
    requires s.Valid() && Writing(s, m, sent0, c, x)
    ensures InFram(c.payload)
  {
    hide FramAfter;
  }

  /** com_process_data with com_exec called where it calls it: each piece of data is written
    before the parser goes on. */
  method ReceivePacket(r: Receiver, s: Writer, packet: seq<bv8>, pos: nat, data: seq<bv8>,
                       ghost m: Image, ghost sent0: seq<bv8>, ghost x: Delivery)
    requires r.Valid() && s.Valid() && s.started && 0 < |packet| <= 255 && pos + |data| <= FRAM_BYTE_SIZE
    requires Writing(s, m, sent0, Command(COM_SET_FRAM, SlicePayload(pos, data)), x)
    requires DeliverAll(x, Feed(r.Now(), packet).calls).Delivery?
    modifies r, s, s.w.fram, s.w`log
    ensures r.Valid() && s.started && r.Now() == Feed(old(r.Now()), packet).parser
    ensures Writing(s, m, sent0, Command(COM_SET_FRAM, SlicePayload(pos, data)),
      DeliverAll(x, Feed(old(r.Now()), packet).calls))
  {
    hide Feed, Writing, Deliver, DeliverAll, SlicePayload;
    ghost var f, y, c := Feed(r.Now(), packet), x, Command(COM_SET_FRAM, SlicePayload(pos, data));
    var at, lenght := 0, |packet|;
    assert packet[at..at + lenght] == packet;
    var again := true;
    while again
      invariant at + lenght <= |packet| && (again ==> lenght > 0) && r.Valid() && s.started
      invariant Writing(s, m, sent0, c, y)
      invariant again ==> SameEnd(x, f, y, Feed(r.Now(), packet[at..at + lenght]))
      invariant !again ==> SameEnd(x, f, y, Fed(r.Now(), []))
      decreases lenght, again
    {
      at, lenght := r.ReadHeader(packet, at, lenght);
      HeaderFed(r.Now(), packet[at..at + lenght]);
      if r.state == COM_DATA {
        var call;
        lenght, call := r.TakeData(packet, at, lenght);
        ghost var g := if lenght == 0 then Fed(r.Now(), []) else Feed(r.Now(), packet[at..at + lenght]);
        OneCall(x, f, y, call, g);
        ExecOne(s, call, pos, data, m, sent0, y);
        y := Deliver(y, call);
      }
      again := lenght != 0;
    }
    EndReached(x, f, y, r.Now());
  }

  /** What is still to be fed leads to the same end. */
  ghost predicate SameEnd(x: Delivery, f: Fed, y: Delivery, g: Fed) {
    g.parser == f.parser && DeliverAll(y, g.calls) == DeliverAll(x, f.calls)
  }

  lemma OneCall(x: Delivery, f: Fed, y: Delivery, call: Call, g: Fed)
    requires SameEnd(x, f, y, Joined([call], g)) && DeliverAll(x, f.calls).Delivery?
    ensures SameEnd(x, f, Deliver(y, call), g) && Deliver(y, call) != Wrong
  {
    hide Deliver;
    assert ([call] + g.calls)[0] == call && ([call] + g.calls)[1..] == g.calls;
    WrongStays(g.calls);
  }

  lemma EndReached(x: Delivery, f: Fed, y: Delivery, p: Parser)
    requires SameEnd(x, f, y, Fed(p, []))
    ensures p == f.parser && y == DeliverAll(x, f.calls)
  {
  }

  /** What a call that is not wrong satisfies. */
  lemma NextPiece(s: Writer, m: Image, sent0: seq<bv8>, pos: nat, data: seq<bv8>, x: Delivery, call: Call)
    returns (received: seq<bv8>)
    requires s.Valid() && pos + |data| <= FRAM_BYTE_SIZE
    requires Writing(s, m, sent0, Command(COM_SET_FRAM, SlicePayload(pos, data)), x) && Deliver(x, call) != Wrong
    ensures x.Delivery? && x.commands == [Command(COM_SET_FRAM, SlicePayload(pos, data))] && received == x.done
    ensures s.Received(m, received) && InFram(received + call.data) && call.id == COM_SET_FRAM && s.sent == sent0
    ensures call.total == |SlicePayload(pos, data)| && received + call.data <= SlicePayload(pos, data)
  {
    hide SlicePayload, AddrOf, FramAfter;
    received := x.done;
    BeginningFits(pos, data, received + call.data);
  }

  lemma PieceTaken(s: Writer, m: Image, sent0: seq<bv8>, c: Command, x: Delivery, call: Call)
    requires s.Valid() && x.Delivery? && x.commands == [c] && Deliver(x, call) != Wrong
    requires InFram(c.payload) && InFram(x.done + call.data) && s.w.fram[..] == FramAfter(m, x.done + call.data)
    requires if |x.done| + |call.data| == call.total
      then s.comPos == s.comParameter == 0 && s.sent == sent0 + [COM_OK]
      else s.Received(m, x.done + call.data) && s.sent == sent0
    ensures Writing(s, m, sent0, c, Deliver(x, call))
  {
    hide AddrOf, FramAfter, InFram;
    var done := x.done + call.data;
    assert done <= c.payload && call.total == |c.payload|;
    if |done| == |c.payload| {
      assert done == c.payload;
    }
  }

  lemma OneCommandAligned(p: Parser, x: Delivery, d: seq<bv8>, rest: seq<bv8>)
    requires InStep(p, x) && |x.commands| <= 1 && d + rest == Left(p, x)
    ensures Aligned(x.commands, LeftOfFirst(p, x), |d|)
  {
    assert |d + rest| == |d| + |rest|;
    if x.commands != [] {
      assert PrintAll(x.commands[1..]) == [];
      PrintedOne(x.commands[0]);
    }
  }

  lemma PrintedOne(c: Command)
    ensures PrintAll([c]) == Print(c)
  {
    assert [c][1..] == [];
  }

  /** Receiving a slice: however its command is cut into packets, the FRAM ends up with the
    data at its position and is otherwise as before, and there is exactly one reply. */
  method Transfer(r: Receiver, s: Writer, packets: seq<seq<bv8>>, pos: nat, data: seq<bv8>)
    requires r.Valid() && r.state == COM_ID && s.Valid() && s.started && s.comPos == s.comParameter == 0
    requires pos + |data| <= FRAM_BYTE_SIZE
    requires Concat(packets) == Print(Command(COM_SET_FRAM, SlicePayload(pos, data)))
    requires forall i: nat | i < |packets| :: 0 < |packets[i]| <= 255
    modifies r, s, s.w.fram, s.w`log
    ensures s.w.fram[..] == Splice(old(s.w.fram[..]), pos, data)
    ensures s.sent == old(s.sent) + [COM_OK] && s.comPos == s.comParameter == 0
    ensures r.Valid() && r.state == COM_ID
  {
    hide Feed, InStep, Left, Writing, SlicePayload, Print, Deliver, Aligned, AddrOf, FramAfter, Concat;
    ghost var m, sent0, c := s.w.fram[..], s.sent, Command(COM_SET_FRAM, SlicePayload(pos, data));
    ghost var x := Delivery([], [c]);
    TransferStarts(r.Now(), s, m, pos, data);
    assert packets[0..] == packets;
    for i := 0 to |packets|
      invariant r.Valid() && s.started && x.Delivery? && Writing(s, m, sent0, c, x)
      invariant InStep(r.Now(), x) && Left(r.Now(), x) == Concat(packets[i..])
      invariant SendableOne(x, c)
    {
      assert packets[i..][0] == packets[i] && packets[i..][1..] == packets[i + 1..];
      ConcatStep(packets[i..]);
      ghost var p := r.Now();
      OneCommandAligned(p, x, packets[i], Concat(packets[i + 1..]));
      FeedDelivers(p, x, packets[i], Concat(packets[i + 1..]));
      ghost var f := Feed(p, packets[i]);
      StillOne(p, x, c, packets[i], Concat(packets[i + 1..]));
      InStepParts(f.parser, DeliverAll(x, f.calls));
      ReceivePacket(r, s, packets[i], pos, data, m, sent0, x);
      x := DeliverAll(x, f.calls);
    }
    TransferEnds(r.Now(), s, m, sent0, pos, data, x);
  }

  ghost predicate SendableOne(x: Delivery, c: Command) {
    x.Delivery? && |x.commands| <= 1 && Sendable(x.commands) && |c.payload| < 0x100_0000
  }

  lemma ConcatStep(packets: seq<seq<bv8>>)
    requires packets != []
    ensures Concat(packets) == packets[0] + Concat(packets[1..])
  {
  }

  lemma TransferStarts(p: Parser, s: Writer, m: Image, pos: nat, data: seq<bv8>)
    requires Proper(p) && p.state == COM_ID && s.Valid() && s.comPos == s.comParameter == 0 && s.w.fram[..] == m
    requires pos + |data| <= FRAM_BYTE_SIZE
    ensures
      var c := Command(COM_SET_FRAM, SlicePayload(pos, data));
      var x := Delivery([], [c]);
      InStep(p, x) && Left(p, x) == Print(c) && Writing(s, m, s.sent, c, x) && SendableOne(x, c)
  {
    BeginningFits(pos, data, SlicePayload(pos, data));
    hide SlicePayload, Print;
    PrintedOne(Command(COM_SET_FRAM, SlicePayload(pos, data)));
  }

  lemma StillOne(p: Parser, x: Delivery, c: Command, d: seq<bv8>, rest: seq<bv8>)
    requires InStep(p, x) && SendableOne(x, c) && d + rest == Left(p, x) && Aligned(x.commands, LeftOfFirst(p, x), |d|)
    ensures SendableOne(DeliverAll(x, Feed(p, d).calls), c)
  {
    hide Feed, InStep, Left, Deliver, DeliverAll, Aligned, LeftOfFirst, Sendable, Skip;
    InStepParts(p, x);
    FeedDelivers(p, x, d, rest);
    InStepParts(Feed(p, d).parser, DeliverAll(x, Feed(p, d).calls));
    SkipShortens(x.commands, LeftOfFirst(p, x), |d|);
  }

  lemma {:induction false} SkipShortens(commands: seq<Command>, first: int, size: nat)
    ensures |Skip(commands, first, size).0| <= |commands|
    decreases |commands|
  {
    if size >= first && commands != [] && first >= 0 {
      SkipShortens(commands[1..], FirstSize(commands[1..]), size - first);
    }
  }

  lemma TransferEnds(p: Parser, s: Writer, m: Image, sent0: seq<bv8>, pos: nat, data: seq<bv8>, x: Delivery)
    requires s.Valid() && pos + |data| <= FRAM_BYTE_SIZE && (p.state == COM_DATA ==> p.processed < p.total)
    requires Writing(s, m, sent0, Command(COM_SET_FRAM, SlicePayload(pos, data)), x)
    requires InStep(p, x) && Left(p, x) == Concat([])
    ensures p.state == COM_ID && s.w.fram[..] == Splice(m, pos, data)
    ensures s.sent == sent0 + [COM_OK] && s.comPos == s.comParameter == 0
  {
    NothingLeft(p, x);
    AddressOfSlice(pos, data);
    hide SlicePayload, AddrOf;
  }
}
