/**
 * The byte buffers as they are: fixed arrays with a fill pointer, filled by
 * copying in and emptied by moving the rest down.
 */
module StreamBuffers {
  import opened Streams

  /** The array copies `memcpy` and `memmove` perform. */
  method CopyIn(buffer: array<Byte>, at: nat, data: Bytes)
    requires at + |data| <= buffer.Length
    modifies buffer
    ensures buffer[..at + |data|] == old(buffer[..at]) + data
  {
    forall i | 0 <= i < |data| {
      buffer[at + i] := data[i];
    }
  }

  method MoveDown(buffer: array<Byte>, from: nat, to: nat)
    requires from <= to <= buffer.Length
    modifies buffer
    ensures buffer[..to - from] == old(buffer[from..to])
  {
    forall i | 0 <= i < to - from {
      buffer[i] := buffer[from + i];
    }
  }

  /** The buffer between the tuner's thread and the session's drain thread. */
  class SessionBuffer {
    const buffer: array<Byte>
    var bufferPtr: nat

    ghost predicate Valid()
      reads this
    {
      buffer.Length == BUFFER_SIZE && bufferPtr < BUFFER_SIZE
    }

    ghost function Contents(): Bytes
      requires Valid()
      reads this, buffer
    {
      buffer[..bufferPtr]
    }

    constructor ()
      ensures Valid() && Contents() == [] && fresh(buffer)
    {
      buffer := new Byte[BUFFER_SIZE](_ => 0);
      bufferPtr := 0;
    }

    /** Data that does not fit replaces the whole buffer. */
    method Write(data: Bytes)
      requires Valid() && |data| < BUFFER_SIZE
      modifies this, buffer
      ensures Valid() && Contents() == SessionWrite(old(Contents()), data)
    {
      if bufferPtr + |data| < BUFFER_SIZE {
        CopyIn(buffer, bufferPtr, data);
        bufferPtr := bufferPtr + |data|;
      } else {
        CopyIn(buffer, 0, data);
        bufferPtr := |data|;
      }
    }

    /** One turn of the drain thread takes everything. */
    method Drain() returns (chunk: Bytes)
      requires Valid()
      modifies this
      ensures Valid() && chunk == old(Contents()) && Contents() == []
    {
      chunk := buffer[..bufferPtr];
      bufferPtr := 0;
    }
  }

  /** A hand-over, as copying the chunk in and moving down what was accepted. */
  lemma HandStep(d: Dest, data: Bytes, taken: nat)
    requires d.kind != Other
    ensures var full := Streams.AddToBuffer(d.data, d.size, data);
            var offer := Offered(d.kind, full);
            && (taken < offer ==> Step(d, Hand(data, taken)) == (d.(data := full[taken..]), full[..taken]))
            && (taken >= offer ==> Step(d, Hand(data, taken)) == (d.(data := full[offer..]), full[..offer]))
            && (offer == 0 ==> Step(d, Hand(data, taken)) == (d.(data := full), []))
  {
    hide Offered, Streams.AddToBuffer;
  }

  /** A destination's own buffer and its transport. */
  class Destination {
    const kind: Kind
    const bufferSize: nat
    const buffer: array<Byte>
    var bufptr: nat

    ghost predicate Valid()
      reads this
    {
      buffer.Length == bufferSize && bufptr < bufferSize
    }

    ghost function Value(): Dest
      requires Valid()
      reads this, buffer
    {
      Dest(kind, bufferSize, buffer[..bufptr])
    }

    constructor (kind: Kind, size: nat)
      requires size > 0
      ensures Valid() && Value() == Dest(kind, size, []) && fresh(buffer)
    {
      this.kind := kind;
      bufferSize := size;
      buffer := new Byte[size](_ => 0);
      bufptr := 0;
    }

    method AddToBuffer(data: Bytes)
      requires Valid()
      modifies this, buffer
      ensures Valid() && Value().data == Streams.AddToBuffer(old(Value().data), bufferSize, data)
    {
      if |data| + bufptr < bufferSize {
        CopyIn(buffer, bufptr, data);
        bufptr := bufptr + |data|;
      } else {
        bufptr := 0;
      }
    }

    /** Takes the first `n` bytes off the buffer. */
    method Remove(n: nat) returns (out: Bytes)
      requires Valid() && n <= bufptr
      modifies this, buffer
      ensures Valid() && out == old(Value().data)[..n] && Value().data == old(Value().data)[n..]
    {
      out := buffer[..n];
      MoveDown(buffer, n, bufptr);
      bufptr := bufptr - n;
    }

    /** What the network or the file takes of an offer. */
    static function Accepted(offer: nat, taken: nat): (n: nat)
      ensures n <= offer
    {
      if taken < offer then taken else offer
    }

    method ProcessUDP(data: Bytes, taken: nat) returns (out: Bytes)
      requires Valid() && kind == Udp
      modifies this, buffer
      ensures Valid() && (Value(), out) == Step(old(Value()), Hand(data, taken))
    {
      hide Offered, Step, Streams.AddToBuffer;
      NetworkOffers(Streams.AddToBuffer(Value().data, bufferSize, data));
      HandStep(Value(), data, taken);
      AddToBuffer(data);
      out := [];
      if bufptr > PACKET * 4 {
        out := Remove(Accepted(PACKET * 3, taken));
      }
    }

    method ProcessMCAST(data: Bytes, taken: nat) returns (out: Bytes)
      requires Valid() && kind == Mcast
      modifies this, buffer
      ensures Valid() && (Value(), out) == Step(old(Value()), Hand(data, taken))
    {
      hide Offered, Step, Streams.AddToBuffer;
      NetworkOffers(Streams.AddToBuffer(Value().data, bufferSize, data));
      HandStep(Value(), data, taken);
      AddToBuffer(data);
      out := [];
      if bufptr > PACKET * 10 {
        out := Remove(Accepted(bufptr, taken));
      }
    }

    /** The condition on the write timer assigns instead of comparing, so the
        write happens on every call. */
    method ProcessFILE(data: Bytes, taken: nat) returns (out: Bytes)
      requires Valid() && kind == File
      modifies this, buffer
      ensures Valid() && (Value(), out) == Step(old(Value()), Hand(data, taken))
    {
      hide Step, Streams.AddToBuffer;
      HandStep(Value(), data, taken);
      AddToBuffer(data);
      out := [];
      var writeLen := bufptr / BLOCK * BLOCK;
      if writeLen > 0 {
        out := Remove(Accepted(writeLen, taken));
      }
    }

    method ProcessHTTP(data: Bytes, ghost taken: nat)
      requires Valid() && kind == Http
      modifies this, buffer
      ensures Valid() && (Value(), []) == Step(old(Value()), Hand(data, taken))
    {
      hide Offered, Step, Streams.AddToBuffer;
      NetworkOffers(Streams.AddToBuffer(Value().data, bufferSize, data));
      HandStep(Value(), data, taken);
      AddToBuffer(data);
    }

    /** One hand-over, whatever the transport. */
    method Process(data: Bytes, taken: nat) returns (out: Bytes)
      requires Valid()
      modifies this, buffer
      ensures Valid() && (Value(), out) == Step(old(Value()), Hand(data, taken))
    {
      match kind {
        case Udp => out := ProcessUDP(data, taken);
        case File => out := ProcessFILE(data, taken);
        case Http => ProcessHTTP(data, taken); out := [];
        case Mcast => out := ProcessMCAST(data, taken);
        case Other => out := [];
      }
    }

    /** The web server's reader; below fifty packets it gets nothing. */
    method GetDataFromBuffer(reqlen: nat) returns (out: Bytes)
      requires Valid() && kind == Http
      modifies this, buffer
      ensures Valid() && (Value(), out) == Step(old(Value()), Read(reqlen))
    {
      out := [];
      if bufptr >= PACKET * 50 {
        var len := if reqlen > bufptr then bufptr else reqlen;
        out := Remove(len);
      }
    }
  }
}
