/** The connection to a MySQL server: whole packets are passed on, and the first one is changed. */
module MySql {
  import opened Frames
  import opened Proxy
  import opened MySqlPackets
  import opened MySqlHandshake

  class MySqlConnection {
    const responseIn: Buffer
    var firstRequest: bool
    var secondPacket: bool
    var startResponse: bool
    var databaseCommand: bool
    var serverVersion: seq<Byte>

    constructor ()
      ensures fresh(responseIn) && responseIn.bytes == []
      ensures firstRequest && !secondPacket && !startResponse && !databaseCommand && serverVersion == []
    {
      responseIn := new Buffer();
      firstRequest, secondPacket, startResponse, databaseCommand, serverVersion := true, false, false, false, [];
    }

    // The second loop runs, and looks into the packets.
    function Inspects(s: seq<Byte>): bool
      reads this
      requires |s| >= HEADER
    {
      (startResponse && s[4] == 0xff) || databaseCommand || firstRequest || secondPacket
    }

    function ModeFor(s: seq<Byte>): Mode
      reads this
      requires |s| >= HEADER
    {
      if !Inspects(s) then Pass else if firstRequest || secondPacket then Opening else Inspect
    }

    // The buffer holds a complete first server packet that is changed.
    predicate Greets(s: seq<Byte>)
      reads this
    {
      firstRequest && Handshake(s) && PacketSize(s) == |s|
    }

    // A first packet is not followed by another one in the buffer.
    predicate Alone(s: seq<Byte>)
      reads this
    {
      firstRequest && |s| >= 7 ==> |s| <= PacketSize(s)
    }

    // The packet at `start`, in the second loop. Says whether the packet was popped.
    method ParseResponsePacket(start: nat, size: nat) returns (popped: bool, response: seq<Byte>)
      requires PREFIX <= size && start + size <= |responseIn.bytes|
      requires firstRequest ==> start == 0 && size == |responseIn.bytes|
      modifies responseIn, this`serverVersion
      ensures var s := old(responseIn.bytes);
              popped == (firstRequest && Handshake(s)) &&
              (popped ==> response == Rewritten(s) && responseIn.bytes == []) &&
              (!popped ==> response == [] && responseIn.bytes == s) &&
              serverVersion == if firstRequest && |s| > 23 then old(serverVersion) + Version(s) else old(serverVersion)
    {
      hide ClearBit;
      popped, response := false, [];
      if firstRequest && size > 23 {
        ghost var s := responseIn.bytes;
        var maxLen := size - 5;
        var len := Strlen(responseIn.bytes[5..]);
        if len > maxLen {
          len := maxLen;
        }
        serverVersion := serverVersion + responseIn.bytes[5..5 + len];
        if len + 20 > size {
          return;
        }
        var flags: nat := ByteAt(responseIn.bytes, len + 20) * 0x100 + ByteAt(responseIn.bytes, len + 19);
        response := responseIn.Pop(size);
        assert response == s;
        flags := ClearBit(flags, COMPRESS);
        flags := ClearBit(flags, SSL);
        response := response[len + 19 := flags % 0x100];
        if len + 20 < |response| {
          response := response[len + 20 := flags / 0x100 % 0x100];
        }
        popped := true;
      }
    }

    // The first loop: nothing is looked into.
    method PassPackets() returns (response: seq<Byte>)
      requires |responseIn.bytes| >= HEADER
      modifies responseIn
      ensures var s := old(responseIn.bytes); response == s[..Taken(s)] && responseIn.bytes == s[Taken(s)..]
    {
      hide Taken;
      var s := responseIn.bytes;
      var start, size := 0, PacketSize(s);
      assert s[0..] == s;
      TakenFrom(s, 0);
      while start + size <= |s|
        invariant responseIn.bytes == s
        invariant start + PREFIX <= |s| && size == PacketSize(s[start..])
        invariant Taken(s) == start + Taken(s[start..]) && (start + size > |s| ==> start == Taken(s))
        decreases |s| - start
      {
        TakenFrom(s, start);
        start := start + size;
        if start + TAIL < |s| {
          size := PacketSize(s[start..]);
          TakenFrom(s, start);
        } else {
          break;
        }
      }
      response := responseIn.Pop(start);
    }

    // The second loop.
    method InspectPackets() returns (response: seq<Byte>)
      requires |responseIn.bytes| >= HEADER
      requires firstRequest ==> |responseIn.bytes| <= PacketSize(responseIn.bytes)
      modifies responseIn, this`secondPacket, this`serverVersion
      ensures var s := old(responseIn.bytes);
              response == (if Greets(s) then Rewritten(s) else s[..Taken(s)]) && responseIn.bytes == s[Taken(s)..] &&
              secondPacket == (old(secondPacket) && PacketSize(s) > |s|) &&
              serverVersion == if firstRequest && |s| > 23 && PacketSize(s) == |s| then old(serverVersion) + Version(s)
                               else old(serverVersion)
    {
      hide Rewritten, Strlen, Taken;
      response := [];
      var s := responseIn.bytes;
      var start, size := 0, PacketSize(s);
      var popped := false;
      assert s[0..] == s;
      TakenFrom(s, 0);
      while start + size <= |s|
        invariant start + PREFIX <= |s| && size == PacketSize(s[start..])
        invariant Taken(s) == start + Taken(s[start..]) && (start + size > |s| ==> start == Taken(s))
        invariant responseIn.bytes == s && response == [] && !popped
        invariant secondPacket == (old(secondPacket) && start == 0)
        invariant firstRequest ==> start == 0 && serverVersion == old(serverVersion)
        invariant !firstRequest ==> serverVersion == old(serverVersion)
        decreases |s| - start
      {
        popped, response := ParseResponsePacket(start, size);
        secondPacket := false;
        TakenFrom(s, start);
        start := start + size;
        if start + TAIL < |s| {
          size := PacketSize(s[start..]);
          TakenFrom(s, start);
        } else {
          break;
        }
      }
      if |responseIn.bytes| > 0 {
        response := responseIn.Pop(start);
      }
    }

    /** Whatever the state of the connection, whole packets are passed on; only a complete first
        packet is changed on the way. */
    method ParseResponse() returns (ok: bool, response: seq<Byte>)
      requires Alone(responseIn.bytes)
      modifies this, responseIn
      ensures firstRequest == old(firstRequest) && databaseCommand == old(databaseCommand)
      ensures var s := old(responseIn.bytes);
              |response| <= |s| && responseIn.bytes == s[|response|..] &&
              if |s| < HEADER then !ok && response == []
              else if !old(Inspects(s)) then ok && response == s[..Taken(s)]
              else if |s| < 7 then
                ok == (firstRequest || old(secondPacket)) && response == if ok then s else []
              else ok && response == if old(Greets(s)) then Rewritten(s) else s[..Taken(s)]
      ensures var s := old(responseIn.bytes);
              |s| >= HEADER && !old(Greets(s)) ==> response == PassedOn(s, old(ModeFor(s)))
      ensures var s := old(responseIn.bytes);
              5 <= |s| <= 6 && !firstRequest && !old(secondPacket) ==>
                (ok <==> !databaseCommand && !(old(startResponse) && s[4] == 255))
      ensures old(firstRequest) ==> response == GreetingOut(old(responseIn.bytes))
      ensures startResponse == (old(startResponse) && |old(responseIn.bytes)| < HEADER)
    {
      ok, response := false, [];
      var s := responseIn.bytes;
      if |s| < HEADER {
        return;
      }
      if !Inspects(s) {
        response := PassPackets();
        startResponse := false;
        return true, response;
      }
      startResponse := false;
      if |s| < 7 {
        if firstRequest || secondPacket {
          response := responseIn.Pop(|s|);
          ok := true;
        }
        return;
      }
      response := InspectPackets();
      ok := true;
    }
  }
}
