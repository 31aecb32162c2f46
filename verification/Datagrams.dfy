/** The receive loops of the datagram servers, which add up the checksums of what arrives. */
module Datagrams {
  import opened InternetChecksum
  import opened Limits
  import opened ChecksumTheory

  /** The bytes that `strcmp(buffer, "exit\n") == 0` asks for, the terminating NUL included. */
  const EXIT: seq<Byte> := [101, 120, 105, 116, 10, 0]

  /** What `recvfrom` delivers of a datagram. */
  function Payload(d: seq<Byte>): (p: seq<Byte>)
    ensures |p| <= BUFFER_SIZE
  {
    if |d| <= BUFFER_SIZE then d else d[..BUFFER_SIZE]
  }

  /** The buffer after `recvfrom`: behind the payload it still holds what it held before. */
  function Received(p: seq<Byte>, stale: seq<Byte>): (r: seq<Byte>)
    requires |p| <= |stale| == BUFFER_SIZE
    ensures |r| == BUFFER_SIZE
  {
    p + stale[|p|..]
  }

  predicate IsExit(buffer: seq<Byte>)
    requires |buffer| == BUFFER_SIZE
  {
    buffer[..6] == EXIT
  }

  function Zeros(): (z: seq<Byte>)
    ensures |z| == BUFFER_SIZE
  {
    seq(BUFFER_SIZE, _ => 0)
  }

  function Payloads(dgrams: seq<seq<Byte>>): (ps: seq<seq<Byte>>)
    ensures |ps| == |dgrams| && forall j :: 0 <= j < |ps| ==> ps[j] == Payload(dgrams[j])
  {
    seq(|dgrams|, i requires 0 <= i < |dgrams| => Payload(dgrams[i]))
  }

  /** How many datagrams are counted before one ends the loop; `stale` is the buffer at the start. */
  function Served(stale: seq<Byte>, dgrams: seq<seq<Byte>>): (n: nat)
    requires |stale| == BUFFER_SIZE
    ensures n <= |dgrams|
    decreases |dgrams|
  {
    if dgrams == [] || IsExit(Received(Payload(dgrams[0]), stale)) then 0
    else 1 + Served(Zeros(), dgrams[1..])
  }

  /** The datagrams before the end of the loop are no exits as they read in the buffer, and the one that ends it is. */
  lemma {:induction false} ServedExactly(stale: seq<Byte>, dgrams: seq<seq<Byte>>, j: nat)
    requires |stale| == BUFFER_SIZE && j < |dgrams| && j <= Served(stale, dgrams)
    ensures IsExit(Received(Payload(dgrams[j]), if j == 0 then stale else Zeros())) <==> j == Served(stale, dgrams)
    decreases |dgrams|
  {
    if j > 0 {
      ServedExactly(Zeros(), dgrams[1..], j - 1);
    }
  }

  lemma EndsAtExit(stale: seq<Byte>, dgrams: seq<seq<Byte>>, ps: seq<seq<Byte>>)
    requires |stale| == BUFFER_SIZE && ps == Payloads(dgrams)
    ensures var served := Served(stale, dgrams);
            && (forall j :: 0 <= j < served ==>
                  (ps[j] + (if j == 0 then stale else seq(1024, _ => 0))[|ps[j]|..])[..6] != EXIT)
            && (served < |dgrams| ==>
                  (ps[served] + (if served == 0 then stale else seq(1024, _ => 0))[|ps[served]|..])[..6] == EXIT)
  {
    forall j | 0 <= j < |dgrams| && j <= Served(stale, dgrams)
      ensures IsExit(Received(ps[j], if j == 0 then stale else Zeros())) <==> j == Served(stale, dgrams)
    {
      ServedExactly(stale, dgrams, j);
    }
  }

  /** In a cleared buffer the loop ends exactly at a payload that reads "exit\n" as a C string. */
  lemma ExitPayload(p: seq<Byte>)
    requires |p| <= BUFFER_SIZE
    ensures IsExit(Received(p, Zeros())) <==> |p| >= 5 && p[..5] == EXIT[..5] && (|p| == 5 || p[5] == 0)
  {
    var view := Received(p, Zeros());
    if |p| >= 6 {
      assert view[..6] == p[..6] && p[..6] == p[..5] + [p[5]] && EXIT == EXIT[..5] + [0];
    } else if |p| == 5 {
      assert view[..6] == p + [0] && p == p[..5] && EXIT == EXIT[..5] + [0];
    } else {
      assert view[4] == 0 && view[..6][4] == 0 && EXIT[4] == 10;
    }
  }

  /** `recvfrom` on the shared buffer. */
  method Receive(buffer: array<Byte>, d: seq<Byte>) returns (bytesRead: nat)
    requires buffer.Length == BUFFER_SIZE
    modifies buffer
    ensures bytesRead == |Payload(d)| && buffer[..] == Received(Payload(d), old(buffer[..]))
    ensures buffer[..bytesRead] == Payload(d)
  {
    bytesRead := if |d| <= BUFFER_SIZE then |d| else BUFFER_SIZE;
    forall i | 0 <= i < bytesRead {
      buffer[i] := d[i];
    }
  }

  method Clear(buffer: array<Byte>)
    requires buffer.Length == BUFFER_SIZE
    modifies buffer
    ensures buffer[..] == Zeros()
  {
    forall i | 0 <= i < buffer.Length {
      buffer[i] := 0;
    }
  }

  /** One round of the receive loop. */
  method ServeOne(buffer: array<Byte>, d: seq<Byte>) returns (exit: bool, bytesRead: nat, c: nat)
    requires buffer.Length == BUFFER_SIZE
    modifies buffer
    ensures exit == IsExit(Received(Payload(d), old(buffer[..])))
    ensures bytesRead == |Payload(d)|
    ensures !exit ==> c == Checksum(Payload(d)) && buffer[..] == Zeros()
  {
    bytesRead := Receive(buffer, d);
    if buffer[..6] == EXIT {
      return true, bytesRead, 0;
    }
    c := ComputeChecksum(buffer, bytesRead);
    LongIsChecksum(Payload(d));
    Clear(buffer);
    exit := false;
  }

  /**
   * The loop of `s_ipv4_udp` and `s_uds_dgram` on the datagrams that arrive. The buffer starts with
   * arbitrary contents and is cleared after every datagram that is counted.
   */
  method Serve(buffer: array<Byte>, dgrams: seq<seq<Byte>>)
    returns (totalBytesRead: nat, checksum: nat, served: nat, ghost ps: seq<seq<Byte>>)
    requires buffer.Length == 1024
    modifies buffer
    // A datagram arrives whole, or its first 1024 bytes do.
    ensures |ps| == |dgrams| && served <= |dgrams|
    ensures forall j :: 0 <= j < |ps| ==> ps[j] == if |dgrams[j]| <= 1024 then dgrams[j] else dgrams[j][..1024]
    // The loop ends at the first that reads "exit\n" in the buffer, up to the NUL.
    ensures forall j :: 0 <= j < served ==>
              (ps[j] + (if j == 0 then old(buffer[..]) else seq(1024, _ => 0))[|ps[j]|..])[..6]
                != [101, 120, 105, 116, 10, 0]
    ensures served < |dgrams| ==>
              (ps[served] + (if served == 0 then old(buffer[..]) else seq(1024, _ => 0))[|ps[served]|..])[..6]
                == [101, 120, 105, 116, 10, 0]
    ensures checksum == Total(ps[..served])
    ensures totalBytesRead == |Concat(ps[..served])|
    ensures (forall j :: 0 <= j < served - 1 ==> |ps[j]| % 2 == 0) ==>
              checksum % 65535 == Checksum(Concat(ps[..served])) % 65535
  {
    hide Checksum, IsExit, Received, WordSum, Canon;
    ChunksGrow([], [], 0);
    hide Total, Concat;
    totalBytesRead, checksum, served := 0, 0, 0;
    ps := Payloads(dgrams);
    while served < |dgrams|
      invariant 0 <= served <= |dgrams|
      invariant Served(old(buffer[..]), dgrams) == served + Served(buffer[..], dgrams[served..])
      invariant checksum == Total(ps[..served]) && totalBytesRead == |Concat(ps[..served])|
    {
      assert dgrams[served..][0] == dgrams[served];
      var exit, bytesRead, c := ServeOne(buffer, dgrams[served]);
      if exit {
        break;
      }
      totalBytesRead := totalBytesRead + bytesRead;
      checksum := checksum + c;
      assert ps[..served + 1] == ps[..served] + [ps[served]];
      ChunksGrow(ps[..served], ps[served], 0);
      assert dgrams[served..][1..] == dgrams[served + 1..];
      served := served + 1;
    }
    assert Served(old(buffer[..]), dgrams) == served;
    EndsAtExit(old(buffer[..]), dgrams, ps);
    if EvenButLast(ps[..served]) {
      EvenChunksTotal(ps[..served]);
    }
  }

  // ----- The range of the running total -----

  function Copies(n: nat, chunk: seq<Byte>): (r: seq<seq<Byte>>)
    ensures |r| == n
  {
    seq(n, _ => chunk)
  }

  lemma {:induction false} TotalIsBounded(chunks: seq<seq<Byte>>)
    ensures Total(chunks) <= 65535 * |chunks|
  {
    if chunks != [] { TotalIsBounded(chunks[1..]); }
  }

  lemma {:induction false} EmptyChunksTotal(n: nat)
    ensures Total(Copies(n, [])) == 65535 * n
  {
    if n > 0 {
      EmptyChunksTotal(n - 1);
      assert Copies(n, [])[1..] == Copies(n - 1, []);
    }
  }

  /** The `int` that holds the total is wide enough for `n` datagrams of any contents exactly up to 32768. */
  lemma TotalRange(n: nat)
    ensures (forall chunks: seq<seq<Byte>> :: |chunks| == n ==> Total(chunks) <= 0x7fff_ffff) <==> n <= 32768
  {
    EmptyChunksTotal(n);
    assert |Copies(n, [])| == n;
    if n <= 32768 {
      forall chunks: seq<seq<Byte>> | |chunks| == n
        ensures Total(chunks) <= INT_MAX
      {
        TotalIsBounded(chunks);
      }
    }
  }

}
