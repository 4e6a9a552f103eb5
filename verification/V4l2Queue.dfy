/**
 One direction of a V4L2 video device, as its callers see it: the buffers it holds, oldest first, whether it
 streams, and how many buffers have been requested. A call may fail, and a failing call changes nothing. A healthy
 driver only refuses what the interface forbids. A dequeue that would wait for ever counts as failing.
 */
module V4l2Queue {

  predicate TakenAt(before: seq<nat>, after: seq<nat>, index: nat, k: nat) {
    k < |before| && before[k] == index && after == before[..k] + before[k + 1..]
  }

  /** `after` is `before` without one occurrence of `index`. */
  ghost predicate Taken(before: seq<nat>, after: seq<nat>, index: nat) {
    exists k: nat :: TakenAt(before, after, index, k)
  }

  class Queue {
    var queue: seq<nat>
    var streaming: bool
    var count: nat
    var healthy: bool
    ghost var returned: nat  // how many buffers have been dequeued

    constructor (healthy: bool)
      ensures queue == [] && !streaming && count == 0 && this.healthy == healthy
    {
      queue, streaming, count := [], false, 0;
      this.healthy := healthy;
      returned := 0;
    }

    method Reqbufs(n: nat) returns (ok: bool)
      modifies this`queue, this`count
      ensures ok ==> !streaming && count == n && queue == []
      ensures !ok ==> count == old(count) && queue == old(queue)
      ensures healthy && !streaming ==> ok
    {
      var lucky: bool := *;
      ok := !streaming && (healthy || lucky);
      if ok {
        count, queue := n, [];
      }
    }

    method Qbuf(index: nat) returns (ok: bool)
      modifies this`queue
      ensures ok ==> index < count && index !in old(queue) && queue == old(queue) + [index]
      ensures !ok ==> queue == old(queue)
      ensures healthy && index < count && index !in old(queue) ==> ok
    {
      var lucky: bool := *;
      ok := index < count && index !in queue && (healthy || lucky);
      if ok {
        queue := queue + [index];
      }
    }

    /** Returns the oldest buffer. */
    method Dqbuf() returns (ok: bool, index: nat)
      modifies this`queue, this`returned
      ensures returned == old(returned) + if ok then 1 else 0
      ensures ok ==> streaming && old(queue) != [] && index == old(queue)[0] && queue == old(queue)[1..]
      ensures !ok ==> queue == old(queue)
      ensures healthy && streaming && old(queue) != [] ==> ok
    {
      var lucky: bool := *;
      ok, index := streaming && queue != [] && (healthy || lucky), 0;
      if ok {
        index, queue := queue[0], queue[1..];
        returned := returned + 1;
      }
    }

    /** Returns any of the buffers; a decoder gives pictures back in display order. */
    method DqbufAny() returns (ok: bool, index: nat)
      modifies this`queue, this`returned
      ensures returned == old(returned) + if ok then 1 else 0
      ensures ok ==> streaming && Taken(old(queue), queue, index)
      ensures !ok ==> queue == old(queue)
      ensures healthy && streaming && old(queue) != [] ==> ok
    {
      var lucky: bool := *;
      ok, index := streaming && queue != [] && (healthy || lucky), 0;
      if ok {
        var k :| 0 <= k < |queue|;
        index := queue[k];
        ghost var was := queue;
        queue := queue[..k] + queue[k + 1..];
        returned := returned + 1;
        assert TakenAt(was, queue, index, k);
      }
    }

    method Streamon() returns (ok: bool)
      modifies this`streaming
      ensures streaming == (ok || old(streaming))
      ensures healthy ==> ok
    {
      var lucky: bool := *;
      ok := healthy || lucky;
      streaming := streaming || ok;
    }

    /** Stopping gives every buffer back. */
    method Streamoff() returns (ok: bool)
      modifies this`streaming, this`queue
      ensures ok ==> !streaming && queue == []
      ensures !ok ==> streaming == old(streaming) && queue == old(queue)
      ensures healthy ==> ok
    {
      var lucky: bool := *;
      ok := healthy || lucky;
      if ok {
        streaming, queue := false, [];
      }
    }

    /** A call that sets up the picture; none of them touches the buffers. */
    method SetUp() returns (ok: bool)
      ensures healthy ==> ok
    {
      var lucky: bool := *;
      ok := healthy || lucky;
    }
  }
}
