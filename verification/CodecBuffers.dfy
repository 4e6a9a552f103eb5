/**
 The buffer tables of the codec library, one per direction of the decoder and of the encoder: the methods on the slots
 and the driver, each of which makes the step of `CodecTable` and gives the answer that the step determines.
 */
module CodecBuffers {
  import opened CodecTable
  import opened V4l2Queue

  datatype Error = None | NoBuffers | ApiFail

  class BufferTable<P> {
    const fd: Queue
    const buf: array<Slot<P>>
    var streamOn: bool

    ghost function State(): Table<P>
      reads this, buf, fd
    {
      Table(buf[..], (set k | k in fd.queue), streamOn)
    }

    /** The flags match what the driver holds, and the handle knows whether the driver streams. */
    ghost predicate Valid()
      reads this, buf, fd
    {
      && Tracks(State()) && fd.count == buf.Length && streamOn == fd.streaming
      && forall j, k | 0 <= j < k < |fd.queue| :: fd.queue[j] != fd.queue[k]
    }

    /** After a set-up for `n` buffers nothing is registered and nothing in flight. */
    constructor (fd: Queue, n: nat, nothing: P)
      requires fd.count == n && fd.queue == [] && !fd.streaming
      ensures Valid() && fresh(buf) && this.fd == fd
      ensures State() == Fresh(n, nothing) && StandsFor(State(), [])
    {
      this.fd := fd;
      streamOn := false;
      buf := new Slot<P>[n](i => Slot(NULL, false, false, nothing));
      new;
      assert buf[..] == Fresh(n, nothing).slots;
      FreshStandsForNothing(n, nothing);
    }

    method Register(addr: Addr) returns (ret: Error)
      requires Valid()
      modifies buf
      ensures Valid() && State() == Step(old(State()), CodecTable.Register(addr))
      ensures ret == if See(old(State()), CodecTable.Register(addr)) == Full then NoBuffers else None
    {
      ghost var was := buf[..];
      var nIndex := 0;
      while nIndex < buf.Length
        invariant nIndex <= buf.Length && buf[..] == was
        invariant FirstFree(was, nIndex) == FirstFree(was, 0)
      {
        if !buf[nIndex].registered {
          buf[nIndex] := buf[nIndex].(addr := addr, registered := true);
          assert buf[..] == was[nIndex := was[nIndex].(addr := addr, registered := true)];
          return None;
        }
        nIndex := nIndex + 1;
      }
      return NoBuffers;
    }

    /** The first free slot with the address, or -1. */
    method Find(pBuffer: Addr) returns (index: int)
      ensures index == if FirstMatch(buf[..], pBuffer, 0) == buf.Length then -1 else FirstMatch(buf[..], pBuffer, 0)
      ensures index >= 0 ==> index < buf.Length && Matches(buf[index], pBuffer)
      ensures index < 0 ==> forall i | 0 <= i < buf.Length :: !Matches(buf[i], pBuffer)
    {
      index := 0;
      while index < buf.Length
        invariant 0 <= index <= buf.Length
        invariant FirstMatch(buf[..], pBuffer, index) == FirstMatch(buf[..], pBuffer, 0)
      {
        if !buf[index].queued {
          if pBuffer == NULL || buf[index].addr == pBuffer {
            return;
          }
        }
        index := index + 1;
      }
      if index == buf.Length {
        index := -1;
      }
      assert forall i | 0 <= i < buf.Length :: buf[..][i] == buf[i];
    }

    /** Queues a buffer; the driver never holds the slot that the search finds. */
    method Enqueue(pBuffer: Addr, pPrivate: P) returns (ret: Error)
      requires Valid()
      modifies buf, fd`queue
      ensures Valid() && State() == Step(old(State()), CodecTable.Enqueue(pBuffer, pPrivate, ret != ApiFail))
      ensures ret == NoBuffers <==> See(old(State()), CodecTable.Enqueue(pBuffer, pPrivate, ret != ApiFail)) == NoBuffer
      ensures fd.healthy ==> ret != ApiFail
    {
      ghost var was, t := buf[..], State();
      var index := Find(pBuffer);
      if index == -1 {
        return NoBuffers;
      }
      buf[index] := buf[index].(queued := true);
      assert was[index] == old(buf[index]) && index !in t.held;
      var ok := fd.Qbuf(index);
      if !ok {
        buf[index] := buf[index].(queued := false);
        assert buf[..] == was;
        return ApiFail;
      }
      buf[index] := buf[index].(priv := pPrivate);
      assert buf[..] == was[index := was[index].(queued := true, priv := pPrivate)];
      assert State().held == t.held + {index};
      return None;
    }

    /** Takes a buffer back, in whatever order the driver chooses; -1 stands for the null result. */
    method Dequeue() returns (index: int)
      requires Valid()
      modifies buf, fd`queue, fd`returned
      ensures Valid() && -1 <= index < buf.Length
      ensures Possible(old(State()), CodecTable.Dequeue(index))
      ensures State() == Step(old(State()), CodecTable.Dequeue(index))
      ensures index == -1 && fd.healthy ==> !streamOn || old(fd.queue) == []
    {
      if !streamOn {
        return -1;
      }
      ghost var was, held, t := buf[..], fd.queue, State();
      var ok, k := fd.DqbufAny();
      if !ok {
        return -1;
      }
      TakenFromSet(held, fd.queue, k);
      assert k in t.held && State().held == t.held - {k};
      buf[k] := buf[k].(queued := false);
      assert buf[..] == was[k := was[k].(queued := false)];
      return k;
    }

    method Run() returns (ret: Error)
      requires Valid()
      modifies this`streamOn, fd`streaming
      ensures Valid() && State() == Step(old(State()), CodecTable.Run(ret == None))
      ensures ret != NoBuffers && (fd.healthy ==> ret == None)
    {
      if !streamOn {
        var ok := fd.Streamon();
        if !ok {
          return ApiFail;
        }
        streamOn := true;
      }
      return None;
    }

    /**
     Stops the stream and clears every flag. The flags still match the driver exactly if the stream was running or
     the driver held nothing; a stop before the stream was started is the one way to break them.
     */
    method Stop() returns (ret: Error)
      requires Valid()
      modifies this`streamOn, buf, fd`queue, fd`streaming
      ensures State() == Step(old(State()), CodecTable.Stop(ret == None)) && (ret == ApiFail ==> old(streamOn))
      ensures Valid() <==> ret == ApiFail || old(streamOn) || old(fd.queue) == []
      ensures ret != NoBuffers && (fd.healthy ==> ret == None)
    {
      ghost var was, t := buf[..], State();
      if streamOn {
        var ok := fd.Streamoff();
        if !ok {
          return ApiFail;
        }
        streamOn := false;
      }
      var i := 0;
      while i < buf.Length
        modifies buf
        invariant i <= buf.Length
        invariant forall j | 0 <= j < buf.Length :: buf[j] == if j < i then was[j].(queued := false) else was[j]
      {
        buf[i] := buf[i].(queued := false);
        i := i + 1;
      }
      assert buf[..] == AllClear(was);
      ClearTracks(t, State().held);
      assert State().held == {} <==> fd.queue == [] by {
        if fd.queue != [] {
          assert fd.queue[0] in State().held;
        }
      }
      return None;
    }
  }

  lemma TakenFromSet(before: seq<nat>, after: seq<nat>, index: nat)
    requires Taken(before, after, index) && forall j, k | 0 <= j < k < |before| :: before[j] != before[k]
    ensures index in before && forall i :: i in after <==> i in before && i != index
    ensures forall j, k | 0 <= j < k < |after| :: after[j] != after[k]
  {
    var k: nat :| TakenAt(before, after, index, k);
    forall i
      ensures i in after <==> i in before && i != index
    {
      if i in before && i != index {
        var l :| 0 <= l < |before| && before[l] == i;
        assert l < k ==> after[l] == i;
        assert l > k ==> after[l - 1] == i;
      }
    }
  }
}
