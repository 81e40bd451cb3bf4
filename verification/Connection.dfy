/** One connection as the program keeps it: tasks that fill and drain in place, a queue, two counters. */
module Connection {
  import opened Bytes
  import opened Framing
  import opened BusModel
  import opened Wrappers

  class WriteTask {
    const data: seq<byte>
    var offset: nat

    ghost function View(): Task
      reads this
    {
      Task(data, offset)
    }

    constructor (data: seq<byte>)
      ensures this.data == data && offset == 0
    {
      this.data, offset := data, 0;
    }

    predicate Finished()
      reads this
    {
      offset >= |data|
    }

    function GetBuffer(): (buffer: seq<byte>)
      reads this
      requires offset <= |data|
      ensures buffer == View().Remaining()
    {
      data[offset..]
    }

    method Complete(size: nat)
      modifies this
      ensures View() == old(View()).Complete(size)
    {
      offset := offset + size;
    }
  }

  class ReadTask {
    const sizeBuffer: array<byte>
    var sizeBufferOffset: nat
    var data: array<byte>
    var dataOffset: nat

    ghost predicate Valid()
      reads this, sizeBuffer, data
    {
      && sizeBuffer.Length == 4 && sizeBuffer != data
      && sizeBufferOffset <= 4 && dataOffset <= data.Length
      && (sizeBufferOffset < 4 ==> data.Length == 0)
      && (sizeBufferOffset == 4 ==> data.Length == FromLe(sizeBuffer[..]))
    }

    /** The bytes of the current frame taken so far. */
    ghost function Held(): (held: seq<byte>)
      reads this, sizeBuffer, data
      requires Valid()
      ensures |held| == sizeBufferOffset + dataOffset
    {
      sizeBuffer[..sizeBufferOffset] + data[..dataOffset]
    }

    constructor ()
      ensures Valid() && Held() == [] && fresh(sizeBuffer) && fresh(data)
    {
      sizeBuffer := new byte[4](_ => 0);
      sizeBufferOffset, dataOffset := 0, 0;
      data := new byte[0];
    }

    lemma HeldFacts()
      requires Valid()
      ensures WithinHeader(Held())
      ensures sizeBufferOffset >= 4 && dataOffset >= data.Length <==> Complete(Held())
      ensures Complete(Held()) ==> Held()[4..] == data[..]
    {
      if sizeBufferOffset == 4 {
        assert Held()[..4] == sizeBuffer[..];
      }
    }

    predicate Finished()
      reads this
    {
      sizeBufferOffset >= 4 && dataOffset >= data.Length
    }

    /** The header part of `Read`: once the fourth header byte is in, the body buffer gets its size. */
    method TakeHeader(offered: seq<byte>) returns (taken: nat)
      requires Valid()
      modifies this, sizeBuffer
      ensures Valid() && (data == old(data) || fresh(data))
      ensures taken == if old(sizeBufferOffset) < 4 then Min(4 - old(sizeBufferOffset), |offered|) else 0
      ensures sizeBufferOffset == old(sizeBufferOffset) + taken
      ensures Held() == old(Held()) + offered[..taken]
    {
      taken := Min(4 - sizeBufferOffset, |offered|);
      CopyIn(sizeBuffer, sizeBufferOffset, offered[..taken]);
      assert sizeBuffer[..sizeBufferOffset + taken] == old(sizeBuffer[..sizeBufferOffset]) + offered[..taken];
      assert taken == 0 ==> sizeBuffer[..] == old(sizeBuffer[..]);
      sizeBufferOffset := sizeBufferOffset + taken;
      if sizeBufferOffset == 4 && taken != 0 {
        data := new byte[FromLe(sizeBuffer[..])](_ => 0);
      }
      assert taken != 0 ==> data[..dataOffset] == [];
    }

    /** The body part of `Read`. */
    method TakeBody(offered: seq<byte>) returns (taken: nat)
      requires Valid() && sizeBufferOffset == 4
      modifies this`dataOffset, data
      ensures Valid()
      ensures taken == Min(data.Length - old(dataOffset), |offered|)
      ensures Held() == old(Held()) + offered[..taken]
    {
      ghost var header, body := sizeBuffer[..], data[..dataOffset];
      taken := Min(data.Length - dataOffset, |offered|);
      CopyIn(data, dataOffset, offered[..taken]);
      dataOffset := dataOffset + taken;
      assert sizeBuffer[..] == header;
      assert data[..dataOffset] == body + offered[..taken];
    }

    /** Takes a part of the offered bytes and says how many. */
    method Read(offered: seq<byte>) returns (taken: nat)
      requires Valid()
      modifies this, sizeBuffer, data
      ensures Valid() && WithinHeader(old(Held()))
      ensures taken == Wanted(old(Held()), offered)
      ensures Held() == old(Held()) + offered[..taken]
      ensures data == old(data) || fresh(data)
    {
      HeldFacts();
      ghost var before := Held();
      var sizeRemains := TakeHeader(offered);
      if sizeBufferOffset < 4 {
        return sizeRemains;
      }
      ghost var now := Held();
      assert now[..4] == sizeBuffer[..];
      assert now[..4] == if |before| < 4 then before + offered[..sizeRemains] else before[..4];
      var dataRemains := TakeBody(offered[sizeRemains..]);
      taken := sizeRemains + dataRemains;
      TakenInTwo(before, offered, sizeRemains, dataRemains);
    }
  }

  lemma TakenInTwo(before: seq<byte>, offered: seq<byte>, m: nat, n: nat)
    requires m + n <= |offered|
    ensures before + offered[..m + n] == (before + offered[..m]) + offered[m..][..n]
  {
  }

  /** `copy_n` into the middle of a buffer. */
  method CopyIn(target: array<byte>, at: nat, bytes: seq<byte>)
    requires at + |bytes| <= target.Length
    modifies target
    ensures target[..] == old(target[..at]) + bytes + old(target[at + |bytes|..])
  {
    for i := 0 to |bytes|
      invariant target[..] == old(target[..at]) + bytes[..i] + old(target[at + i..])
    {
      target[at + i] := bytes[i];
    }
  }

  class LocalBusConnection {
    var writeSerial: u32
    var readSerial: u32
    var writeQueue: seq<WriteTask>
    var readTask: ReadTask
    var output: bool
    ghost var Repr: set<object>

    ghost predicate TasksOk(queue: seq<WriteTask>, objects: set<object>)
      reads objects
    {
      && (forall i :: 0 <= i < |queue| ==> queue[i] in objects && queue[i].offset <= |queue[i].data|)
      && (forall i, j :: 0 <= i < j < |queue| ==> queue[i] != queue[j])
    }

    ghost predicate Valid()
      reads this, Repr
      ensures Valid() ==> this in Repr
    {
      && this in Repr && readTask in Repr && readTask.sizeBuffer in Repr && readTask.data in Repr
      && readTask.Valid()
      && TasksOk(writeQueue, Repr)
    }

    ghost function Queue(): (queue: seq<Task>)
      reads this, Repr
      requires Valid()
      ensures |queue| == |writeQueue|
      ensures forall i :: 0 <= i < |queue| ==> queue[i] == Task(writeQueue[i].data, writeQueue[i].offset)
    {
      seq(|writeQueue|, i requires 0 <= i < |writeQueue| && Valid() reads this, Repr => writeQueue[i].View())
    }

    ghost function View(): Conn
      reads this, Repr
      requires Valid()
    {
      Conn(Queue(), writeSerial, readSerial, readTask.Held(), output)
    }

    constructor ()
      ensures Valid() && fresh(Repr) && View() == NEW_CONN
    {
      writeSerial, readSerial, writeQueue, output := 0, 0, [], false;
      readTask := new ReadTask();
      new;
      Repr := {this, readTask, readTask.sizeBuffer, readTask.data};
    }

    method EnableWrite(enable: bool)
      modifies this`output
      ensures output == enable
    {
      output := enable;
    }

    /** Queues a frame; the caller learns the serial, which counts frames modulo 2^32. */
    method Send(data: seq<byte>) returns (serial: u32)
      requires Valid()
      modifies Repr
      ensures Valid() && fresh(Repr - old(Repr))
      ensures View() == Enqueue(old(View()), data) && serial == old(View()).writeSerial
    {
      ghost var before := View();
      EnableWrite(true);
      var task := new WriteTask(data);
      writeQueue := writeQueue + [task];
      Repr := Repr + {task};
      serial := writeSerial;
      writeSerial := Truncate32(writeSerial + 1);
      assert Queue() == before.queue + [Task(data, 0)];
    }

    /** What the socket is offered at an output event. */
    function Offered(): (buffer: seq<byte>)
      reads this, Repr
      requires Valid()
      ensures buffer == if View().queue == [] then [] else View().queue[0].Remaining()
    {
      if writeQueue == [] then [] else writeQueue[0].GetBuffer()
    }

    /** The front task records what the socket took. */
    method CompleteFront(written: nat)
      requires Valid() && writeQueue != [] && written <= |Offered()|
      modifies Repr
      ensures Valid() && Repr == old(Repr) && writeQueue == old(writeQueue)
      ensures View() == old(View()).(queue := [old(View()).queue[0].Complete(written)] + old(View()).queue[1..])
    {
      ghost var before := Queue();
      var task := writeQueue[0];
      task.Complete(written);
      assert forall i :: 0 < i < |writeQueue| ==> Queue()[i] == before[i];
      assert Queue() == [before[0].Complete(written)] + before[1..];
    }

    method PopFront()
      requires Valid() && writeQueue != []
      modifies this`writeQueue
      ensures Valid() && View() == old(View()).(queue := old(View()).queue[1..])
    {
      ghost var before := Queue();
      writeQueue := writeQueue[1..];
      assert Queue() == before[1..];
    }

    /** An output event at which the socket takes `written` of the offered bytes. */
    method HandleOutput(written: nat)
      requires Valid() && written <= |Offered()|
      modifies Repr
      ensures Valid() && Repr == old(Repr)
      ensures View() == OnOutput(old(View()), written)
    {
      if writeQueue != [] {
        CompleteFront(written);
        if writeQueue[0].Finished() {
          PopFront();
        }
      }
      if writeQueue == [] {
        EnableWrite(false);
      }
    }

    /** Gives the read task a part of the offered bytes. */
    method TakeBytes(offered: seq<byte>) returns (taken: nat)
      requires Valid()
      modifies Repr
      ensures Valid() && fresh(Repr - old(Repr))
      ensures WithinHeader(old(View()).held) && taken == Wanted(old(View()).held, offered)
      ensures View() == old(View()).(held := old(View()).held + offered[..taken])
    {
      ghost var before := View();
      taken := readTask.Read(offered);
      Repr := Repr + {readTask.data};
      assert Queue() == before.queue;
    }

    /** The payload of the frame, once the read task is finished. */
    method FinishedPayload() returns (payload: Option<seq<byte>>)
      requires Valid()
      ensures payload == if Complete(View().held) then Some(View().held[4..]) else None
    {
      readTask.HeldFacts();
      payload := if readTask.Finished() then Some(readTask.data[..]) else None;
    }

    /** Numbers the finished frame. */
    method CountFrame() returns (serial: u32)
      requires Valid()
      modifies this`readSerial
      ensures Valid() && Repr == old(Repr) && serial == old(View()).readSerial
      ensures View() == old(View()).(readSerial := Truncate32(serial + 1))
    {
      ghost var before := View();
      serial := readSerial;
      readSerial := Truncate32(readSerial + 1);
      assert Queue() == before.queue;
    }

    /** `_readTask = ReadTask()`. */
    method ResetReadTask()
      requires Valid()
      modifies this
      ensures Valid() && fresh(Repr - old(Repr))
      ensures View() == old(View()).(held := [])
    {
      ghost var before := View();
      readTask := new ReadTask();
      Repr := Repr + {readTask, readTask.sizeBuffer, readTask.data};
      assert Queue() == before.queue;
    }
  }
}
