/** Staging buffers and an in-order asynchronous copy stream.

    The host fills a staging slot, queues copies out of it, records an event and goes on.  The stream
    executes queued copies in order, whenever it likes; a copy reads its slot when it executes, not
    when it is queued.
 */
module Transfer {
  import opened Common
  import opened Payload

  datatype Copy = Copy(slot: nat, from: nat, to: nat, count: nat)

  // ----- What a list of stores does to memory

  /** memory[addresses[i]] := data[i], in order. */
  function StoreAll(memory: seq<byte>, addresses: seq<nat>, data: seq<byte>): (r: seq<byte>)
    requires |addresses| == |data|
    ensures |r| == |memory|
  {
    if addresses == [] then memory else
    var n := |addresses| - 1;
    var before := StoreAll(memory, addresses[..n], data[..n]);
    if addresses[n] < |memory| then before[addresses[n] := data[n]] else before
  }

  lemma {:induction false} StoreConcat(memory: seq<byte>, a: seq<nat>, x: seq<byte>, b: seq<nat>, y: seq<byte>)
    requires |a| == |x| && |b| == |y|
    ensures StoreAll(memory, a + b, x + y) == StoreAll(StoreAll(memory, a, x), b, y)
  {
    if b == [] {
      assert a + b == a && x + y == x;
    } else {
      var n := |b| - 1;
      StoreConcat(memory, a, x, b[..n], y[..n]);
      assert (a + b)[..|a + b| - 1] == a + b[..n] && (x + y)[..|x + y| - 1] == x + y[..n];
    }
  }

  lemma {:induction false} StoreElsewhere(memory: seq<byte>, addresses: seq<nat>, data: seq<byte>, y: nat)
    requires |addresses| == |data| && y < |memory| && y !in addresses
    ensures StoreAll(memory, addresses, data)[y] == memory[y]
  {
    if addresses != [] {
      var n := |addresses| - 1;
      assert addresses[n] != y;
      StoreElsewhere(memory, addresses[..n], data[..n], y);
    }
  }

  /** Stores to distinct addresses all land. */
  lemma {:induction false} StoreLands(memory: seq<byte>, addresses: seq<nat>, data: seq<byte>, i: nat)
    requires |addresses| == |data| && i < |addresses| && addresses[i] < |memory|
    requires forall k, l :: 0 <= k < l < |addresses| ==> addresses[k] != addresses[l]
    ensures StoreAll(memory, addresses, data)[addresses[i]] == data[i]
  {
    var n := |addresses| - 1;
    if i < n { StoreLands(memory, addresses[..n], data[..n], i); }
  }

  function Addresses(begin: nat, count: nat): (a: seq<nat>)
    ensures |a| == count && forall i :: 0 <= i < count ==> a[i] == begin + i
  {
    seq(count, i => begin + i)
  }

  /** The addresses a queue of copies stores to, in order. */
  function AllAddresses(queue: seq<Copy>): seq<nat> {
    if queue == [] then [] else
    AllAddresses(queue[..|queue| - 1]) + Addresses(queue[|queue| - 1].to, queue[|queue| - 1].count)
  }

  /** The bytes the copies are meant to store, in order. */
  function AllData(intents: seq<seq<byte>>): seq<byte> {
    if intents == [] then [] else AllData(intents[..|intents| - 1]) + intents[|intents| - 1]
  }

  ghost predicate Intended(queue: seq<Copy>, intents: seq<seq<byte>>) {
    |queue| == |intents| && forall i :: 0 <= i < |queue| ==> |intents[i]| == queue[i].count
  }

  lemma {:induction false} SameLength(queue: seq<Copy>, intents: seq<seq<byte>>)
    requires Intended(queue, intents)
    ensures |AllAddresses(queue)| == |AllData(intents)|
  {
    if queue != [] { SameLength(queue[..|queue| - 1], intents[..|queue| - 1]); }
  }

  /** Device memory after the first n copies of the queue. */
  function After(memory: seq<byte>, queue: seq<Copy>, intents: seq<seq<byte>>, n: nat): (r: seq<byte>)
    requires Intended(queue, intents) && n <= |queue|
    ensures |r| == |memory|
  {
    SameLength(queue[..n], intents[..n]);
    StoreAll(memory, AllAddresses(queue[..n]), AllData(intents[..n]))
  }

  lemma AfterStep(memory: seq<byte>, queue: seq<Copy>, intents: seq<seq<byte>>, n: nat)
    requires Intended(queue, intents) && n < |queue|
    ensures After(memory, queue, intents, n + 1)
         == StoreAll(After(memory, queue, intents, n), Addresses(queue[n].to, queue[n].count), intents[n])
  {
    SameLength(queue[..n], intents[..n]);
    assert queue[..n + 1][..n] == queue[..n] && intents[..n + 1][..n] == intents[..n];
    StoreConcat(memory, AllAddresses(queue[..n]), AllData(intents[..n]),
                Addresses(queue[n].to, queue[n].count), intents[n]);
  }

  lemma AfterSnoc(memory: seq<byte>, queue: seq<Copy>, intents: seq<seq<byte>>, c: Copy, data: seq<byte>, n: nat)
    requires Intended(queue, intents) && |data| == c.count && n <= |queue|
    ensures Intended(queue + [c], intents + [data])
    ensures After(memory, queue + [c], intents + [data], n) == After(memory, queue, intents, n)
    ensures AllAddresses(queue + [c]) == AllAddresses(queue) + Addresses(c.to, c.count)
    ensures AllData(intents + [data]) == AllData(intents) + data
  {
    assert (queue + [c])[..n] == queue[..n] && (intents + [data])[..n] == intents[..n];
    assert (queue + [c])[..|queue|] == queue && (intents + [data])[..|intents|] == intents;
  }

  /** std::numeric_limits<ssize_t>::max(). */
  const SSIZE_MAX: nat := 0x7FFF_FFFF_FFFF_FFFF

  /** What a read of the file gets: nothing past its end, and no more than the system gives. */
  function Received(fileBytes: nat, offset: nat, request: nat, limit: nat): nat {
    if offset >= fileBytes then 0 else Min(Min(request, fileBytes - offset), limit)
  }

  // ----- The stream

  class TransferStream {
    const slotBytes: nat
    /** The moments at which the stream gets to run, and how far: any function at all. */
    const schedule: nat -> nat
    /** Device memory before the first copy. */
    ghost const start: seq<byte>
    var slots: seq<seq<byte>>
    var pending: seq<bool>
    var events: seq<nat>
    var queue: seq<Copy>
    var done: nat
    var device: seq<byte>
    var clock: nat
    /** The bytes each queued copy was queued for. */
    ghost var intents: seq<seq<byte>>

    /** The device is exactly what the executed copies were meant to make it, and every copy still
        queued would, if executed now, read what it was meant to read. */
    ghost predicate Valid()
      reads this
    {
      && |slots| == |pending| == |events|
      && (forall k :: 0 <= k < |slots| ==> |slots[k]| == slotBytes)
      && done <= |queue|
      && Intended(queue, intents)
      && (forall i :: 0 <= i < |queue| ==>
            queue[i].slot < |slots| && queue[i].from + queue[i].count <= slotBytes
            && queue[i].to + queue[i].count <= |start|)
      && device == After(start, queue, intents, done)
      && (forall i :: done <= i < |queue| ==>
            slots[queue[i].slot][queue[i].from..queue[i].from + queue[i].count] == intents[i])
    }

    /** Every queued copy out of a slot other than the current one lies before that slot's event. */
    ghost predicate Fenced(current: int)
      reads this
    {
      && |slots| == |pending| == |events|
      && (forall i :: done <= i < |queue| && queue[i].slot != current ==>
            queue[i].slot < |slots| && pending[queue[i].slot] && i < events[queue[i].slot])
      && (forall k :: 0 <= k < |slots| && k != current && pending[k] ==> events[k] <= |queue|)
    }

    /** No queued copy still reads the slot. */
    ghost predicate Idle(slot: nat)
      reads this
    {
      forall i :: done <= i < |queue| ==> queue[i].slot != slot
    }

    constructor (slotCount: nat, slotBytes: nat, memory: seq<byte>, schedule: nat -> nat)
      ensures Valid() && Fenced(-1) && |slots| == slotCount && this.slotBytes == slotBytes
      ensures start == memory && queue == [] && intents == [] && fresh(this)
    {
      this.slotBytes, this.schedule, start := slotBytes, schedule, memory;
      slots := seq(slotCount, _ => seq(slotBytes, _ => 0));
      pending := seq(slotCount, _ => false);
      events := seq(slotCount, _ => 0);
      queue, done, device, clock, intents := [], 0, memory, 0, [];
    }

    /** The stream executes copies, in order, up to position n. */
    method RunUntil(n: nat)
      requires Valid() && n <= |queue|
      modifies this`done, this`device
      ensures Valid() && done == Max(old(done), n)
    {
      hide After, StoreAll;
      while done < n
        invariant Valid() && done <= Max(old(done), n)
        invariant done >= old(done)
        decreases n - done
      {
        var c := queue[done];
        AfterStep(start, queue, intents, done);
        device := StoreAll(device, Addresses(c.to, c.count), slots[c.slot][c.from..c.from + c.count]);
        done := done + 1;
      }
    }

    /** Between any two host steps the stream may run as far as it likes. */
    method Elapse(ghost current: int)
      requires Valid() && Fenced(current)
      modifies this`done, this`device, this`clock
      ensures Valid() && Fenced(current) && done >= old(done)
      ensures forall k :: 0 <= k < |slots| && old(Idle(k)) ==> Idle(k)
    {
      var n := schedule(clock);
      clock := clock + 1;
      if n <= |queue| { RunUntil(n); }
    }

    /** Slot::wait: blocks until the stream has passed the slot's event. */
    method Wait(slot: nat)
      requires Valid() && Fenced(-1) && slot < |slots|
      modifies this`done, this`device, this`pending
      ensures Valid() && Fenced(-1) && Idle(slot) && done >= old(done)
      ensures |slots| == old(|slots|) && pending == old(pending)[slot := false]
    {
      if pending[slot] {
        RunUntil(events[slot]);
        pending := pending[slot := false];
      }
    }

    /** The direct read into a slot that nothing still reads: it refuses unaligned positions and
        sizes and oversized requests; otherwise the slot gets received bytes of the file, then whatever the read left
        behind.  The limit is where the system cuts the read short. */
    method ReadDirect(slot: nat, file: seq<byte>, offset: nat, request: nat, limit: nat, noise: nat -> byte)
      returns (r: Result<nat>)
      requires Valid() && Fenced(-1) && slot < |slots| && Idle(slot) && request <= slotBytes
      modifies this`slots
      ensures Valid() && Fenced(-1) && Fenced(slot) && |slots| == old(|slots|)
      ensures r.Ok? <==>
                offset % PAYLOAD_ALIGNMENT == 0 && request % PAYLOAD_ALIGNMENT == 0 && request <= SSIZE_MAX
      ensures r.Ok? && r.value > 0 ==>
                && offset + r.value <= |file| && r.value <= request
                && |slots[slot]| == slotBytes && slots[slot][..r.value] == file[offset..offset + r.value]
      ensures r.Ok? ==> r.value == Received(|file|, offset, request, limit)
    {
      hide After, AllAddresses, AllData;
      if offset % PAYLOAD_ALIGNMENT != 0 || request % PAYLOAD_ALIGNMENT != 0 || request > SSIZE_MAX {
        return Err(ArtifactError);
      }
      var received := Received(|file|, offset, request, limit);
      var filled := if received == 0 then [] else file[offset..offset + received];
      slots := slots[slot := filled + seq(slotBytes - received, i requires i >= 0 => noise(i))];
      r := Ok(received);
    }

    /** Queues one copy out of the current slot. */
    method Enqueue(slot: nat, from: nat, to: nat, count: nat)
      requires Valid() && Fenced(slot) && slot < |slots|
      requires from + count <= slotBytes && to + count <= |start|
      modifies this`queue, this`intents
      ensures Valid() && Fenced(slot)
      ensures AllAddresses(queue) == AllAddresses(old(queue)) + Addresses(to, count)
      ensures AllData(intents) == AllData(old(intents)) + slots[slot][from..from + count]
    {
      hide After, AllAddresses, AllData;
      var c := Copy(slot, from, to, count);
      ghost var data := slots[slot][from..from + count];
      AfterSnoc(start, queue, intents, c, data, done);
      queue := queue + [c];
      intents := intents + [data];
    }

    /** Records the slot's event after its last copy. */
    method Record(slot: nat)
      requires Valid() && Fenced(slot) && slot < |slots|
      modifies this`events, this`pending
      ensures Valid() && Fenced(-1)
      ensures |pending| == old(|pending|)
    {
      events := events[slot := |queue|];
      pending := pending[slot := true];
    }

    /** Synchronizes the whole stream. */
    method Finish()
      requires Valid()
      modifies this`done, this`device
      ensures Valid() && done == |queue|
      ensures |AllAddresses(queue)| == |AllData(intents)|
      ensures device == StoreAll(start, AllAddresses(queue), AllData(intents))
    {
      RunUntil(|queue|);
      SameLength(queue, intents);
      assert queue[..|queue|] == queue && intents[..|intents|] == intents;
    }
  }
}
