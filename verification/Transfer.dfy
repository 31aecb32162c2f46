/** The byte-stream loops: retried writes, and the copy of a file through a named pipe. */
module Transfer {
  import opened InternetChecksum
  import opened Limits
  import opened ChecksumTheory

  function Min(a: nat, b: nat): nat { if a < b then a else b }

  // ----- Retried writes -----

  /**
   * What the successive calls of `write` do: -1 for an error, and otherwise how many bytes a call
   * takes if it is offered that many.
   */
  type Writes = nat -> int

  ghost predicate Progressing(write: Writes) {
    forall i :: write(i) == -1 || write(i) >= 1
  }

  /** How many of `size` bytes are taken by the calls from call `i` on, up to the first error. */
  ghost function Accepted(write: Writes, i: nat, size: nat): (sent: nat)
    requires Progressing(write)
    ensures sent <= size
    decreases size
  {
    if size == 0 || write(i) == -1 then 0
    else var r := Min(write(i), size); r + Accepted(write, i + 1, size - r)
  }

  /** Without an error among the next `size` calls all `size` bytes are taken. */
  lemma {:induction false} AllAccepted(write: Writes, i: nat, size: nat)
    requires Progressing(write)
    requires forall j :: i <= j < i + size ==> write(j) != -1
    ensures Accepted(write, i, size) == size
    decreases size
  {
    if size > 0 {
      var r := Min(write(i), size);
      AllAccepted(write, i + 1, size - r);
    }
  }

  /** Each call adds to the stream what it takes, up to what is left of `size` bytes. */
  ghost predicate Adding(write: Writes, size: nat, marks: seq<nat>) {
    && marks != [] && marks[0] == 0
    && forall j :: 0 <= j < |marks| - 1 ==>
         marks[j] < size && write(j) >= 1 && marks[j + 1] == Min(marks[j] + write(j), size)
  }

  lemma AddingOne(write: Writes, size: nat, marks: seq<nat>, sent: nat)
    requires marks != [] && Adding(write, size, marks) && marks[|marks| - 1] < size && write(|marks| - 1) >= 1
    requires sent == Min(marks[|marks| - 1] + write(|marks| - 1), size)
    ensures Adding(write, size, marks + [sent])
  {
  }

  lemma AddingMeans(write: Writes, size: nat, marks: seq<nat>)
    ensures Adding(write, size, [0])
    ensures Adding(write, size, marks) ==>
              && marks != [] && marks[0] == 0
              && forall j :: 0 <= j < |marks| - 1 ==>
                   && marks[j] < size && write(j) >= 1
                   && marks[j + 1] == if marks[j] + write(j) <= size then marks[j] + write(j) else size
  {
  }

  /**
   * The retry loop of `perform_server_performance_test`. It ends, accounts for every byte, and puts
   * the accepted bytes on the stream in order and once; without an error that is all of them.
   */
  method SendAll(buffer: array<Byte>, write: Writes)
    returns (stream: seq<Byte>, sent: nat, remaining: nat, calls: nat, ghost marks: seq<nat>)
    requires Progressing(write)
    // What is on the stream before the first call and after each: a call adds what it takes, up to what is left.
    ensures |marks| == calls + 1 && marks[0] == 0 && marks[calls] == sent
    ensures forall j :: 0 <= j < calls ==>
              && marks[j] < buffer.Length && write(j) >= 1
              && marks[j + 1] == (if marks[j] + write(j) <= buffer.Length then marks[j] + write(j) else buffer.Length)
    ensures sent + remaining == buffer.Length && stream == buffer[..sent]
    ensures sent == Accepted(write, 0, buffer.Length)
    ensures remaining == 0 ==> stream == buffer[..]
    ensures remaining > 0 ==> write(calls) == -1
    ensures calls <= sent
  {
    hide Adding;
    sent, remaining, stream, calls := 0, buffer.Length, [], 0;
    marks := [0];
    AddingMeans(write, buffer.Length, marks);
    while remaining > 0
      invariant |marks| == calls + 1 && marks[calls] == sent && Adding(write, buffer.Length, marks)
      invariant sent + remaining == buffer.Length && stream == buffer[..sent] && calls <= sent
      invariant sent + Accepted(write, calls, remaining) == Accepted(write, 0, buffer.Length)
      decreases remaining
    {
      if write(calls) == -1 {
        break;
      }
      var r := Min(write(calls), remaining);
      assert buffer[..sent + r] == buffer[..sent] + buffer[sent..sent + r];
      stream := stream + buffer[sent..sent + r];
      sent := sent + r;
      remaining := remaining - r;
      AddingOne(write, buffer.Length, marks, sent);
      marks := marks + [sent];
      calls := calls + 1;
    }
    AddingMeans(write, buffer.Length, marks);
  }

  /**
   * The client side of the pipe test: the retry loop for the data, then one `write` for the two bytes
   * of the checksum, which is not retried.
   */
  method SendWithChecksum(data: array<Byte>, checksum: nat, write: Writes)
    returns (stream: seq<Byte>, failed: bool, calls: nat, ghost marks: seq<nat>)
    requires Progressing(write) && checksum <= 65535
    // The calls for the data, as in `SendAll`; the next one is for the checksum, or is the one that failed.
    ensures |marks| == calls + 1 && marks[0] == 0 && (!failed ==> marks[calls] == data.Length)
    ensures forall j :: 0 <= j < calls ==>
              && marks[j] < data.Length && write(j) >= 1
              && marks[j + 1] == (if marks[j] + write(j) <= data.Length then marks[j] + write(j) else data.Length)
    ensures failed <==> write(calls) == -1
    ensures failed ==> marks[calls] <= data.Length && stream == data[..marks[calls]]
    ensures !failed ==> stream == data[..] + [checksum % 256, checksum / 256][..if write(calls) == 1 then 1 else 2]
    ensures !failed && |stream| == data.Length + 2 && data.Length % 2 == 0 && checksum == Checksum(data[..]) ==>
              Checksum(stream) == 0
  {
    var sent, remaining;
    stream, sent, remaining, calls, marks := SendAll(data, write);
    if remaining > 0 || write(calls) == -1 {
      return stream, true, calls, marks;
    }
    var r := Min(write(calls), 2);
    stream := stream + LowHigh(checksum)[..r];
    assert r == 2 ==> stream == data[..] + [checksum % 256, checksum / 256];
    FramingVerifies(data[..]);
    return stream, false, calls, marks;
  }

  /** Data and checksum copied into one buffer and sent by the retry loop. */
  method SendFramed(data: array<Byte>, checksum: nat, write: Writes) returns (stream: seq<Byte>, remaining: nat)
    requires Progressing(write) && checksum <= 65535
    ensures stream == (data[..] + [checksum % 256, checksum / 256])[..Accepted(write, 0, data.Length + 2)]
    ensures (forall j :: 0 <= j < data.Length + 2 ==> write(j) != -1) ==> remaining == 0
    ensures remaining == 0 <==> stream == data[..] + [checksum % 256, checksum / 256]
    ensures remaining == 0 && data.Length % 2 == 0 && checksum == Checksum(data[..]) ==> Checksum(stream) == 0
  {
    var framed := new Byte[data.Length + 2](_ => 0);
    forall i | 0 <= i < data.Length {
      framed[i] := data[i];
    }
    framed[data.Length] := checksum % 256;
    framed[data.Length + 1] := checksum / 256;
    assert framed[..] == data[..] + LowHigh(checksum);
    var sent, calls;
    ghost var marks;
    stream, sent, remaining, calls, marks := SendAll(framed, write);
    FramingVerifies(data[..]);
    if forall j :: 0 <= j < data.Length + 2 ==> write(j) != -1 {
      AllAccepted(write, 0, data.Length + 2);
    }
  }

  // ----- The loops of `c_pipe` and `s_pipe` -----

  /** `c_pipe` with blocking writes, which take all they are offered: the file goes out in chunks. */
  method CopyOut(file: seq<Byte>, buffer: array<Byte>) returns (written: seq<Byte>, chunks: nat)
    requires buffer.Length == BUFFER_SIZE
    modifies buffer
    ensures written == file && chunks == (|file| + BUFFER_SIZE - 1) / BUFFER_SIZE
  {
    var position, eof := 0, false;
    written, chunks := [], 0;
    while !eof
      invariant 0 <= position <= |file| && written == file[..position]
      invariant if eof then position == |file| && chunks == (|file| + BUFFER_SIZE - 1) / BUFFER_SIZE
                else position == chunks * BUFFER_SIZE
      decreases |file| - position, if eof then 0 else 1
    {
      var bytesRead := Min(BUFFER_SIZE, |file| - position);
      forall i | 0 <= i < bytesRead {
        buffer[i] := file[position + i];
      }
      assert buffer[..bytesRead] == file[position..position + bytesRead];
      eof := bytesRead < BUFFER_SIZE;
      if bytesRead > 0 {
        written := written + buffer[..bytesRead];
        chunks := chunks + 1;
      }
      position := position + bytesRead;
    }
  }

  /** `s_pipe` on a stream that reads cut anywhere: `cut` is how much the next `read` finds. */
  method CopyIn(stream: seq<Byte>, cut: nat -> nat, buffer: array<Byte>) returns (file: seq<Byte>, counter: nat)
    requires buffer.Length == BUFFER_SIZE && forall i :: cut(i) >= 1
    modifies buffer
    ensures file == stream && counter == |stream|
  {
    file, counter := [], 0;
    var calls := 0;
    while counter < |stream|
      invariant 0 <= counter <= |stream| && file == stream[..counter]
      decreases |stream| - counter
    {
      var bytesRead := Min(Min(BUFFER_SIZE, cut(calls)), |stream| - counter);
      forall i | 0 <= i < bytesRead {
        buffer[i] := stream[counter + i];
      }
      assert buffer[..bytesRead] == stream[counter..counter + bytesRead];
      counter := counter + bytesRead;
      file := file + buffer[..bytesRead];
      calls := calls + 1;
    }
  }

}
