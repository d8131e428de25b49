/** The input buffer of the parser (XML_GetBuffer, XML_ParseBuffer and XML_Parse).

    The buffer holds the bytes that are not parsed yet, behind up to 1024 bytes that are.  Whatever
    is moved or grown, the parser sees exactly the unparsed rest of the stream. */
module InputWindow {
  import opened Bytes

  const INIT_BUFFER_SIZE: nat := 1024
  const XML_CONTEXT_BYTES: nat := 1024

  /** What a processor does with the bytes it is given: an error, or how many it has consumed. */
  datatype Verdict = Failed | Consumed(n: nat)

  ghost predicate IsProcessor(process: (seq<Byte>, bool) -> Verdict) {
    forall bytes, isFinal :: process(bytes, isFinal).Consumed? ==> process(bytes, isFinal).n <= |bytes|
  }

  /** The processors of successive calls. */
  ghost predicate AreProcessors(process: (nat, seq<Byte>, bool) -> Verdict) {
    forall i, bytes, isFinal :: process(i, bytes, isFinal).Consumed? ==> process(i, bytes, isFinal).n <= |bytes|
  }

  function Min(a: nat, b: nat): nat {
    if a < b then a else b
  }

  class Window {
    var buffer: array<Byte>
    var bufferPtr: nat
    var bufferEnd: nat
    var failed: bool

    /** All bytes received, and how many of them lie before the unparsed ones and before the buffer. */
    ghost var stream: seq<Byte>
    ghost var parsed: nat
    ghost var dropped: nat

    ghost predicate Valid()
      reads this, buffer
    {
      && bufferPtr <= bufferEnd <= buffer.Length
      && parsed == dropped + bufferPtr && parsed <= |stream|
      && buffer[..bufferEnd] == stream[dropped..]
    }

    /** The bytes between bufferPtr and bufferEnd are the unparsed rest of the stream. */
    lemma {:induction false} WindowIsRest()
      requires Valid()
      ensures buffer[bufferPtr..bufferEnd] == stream[parsed..]
      ensures buffer[..bufferPtr] == stream[dropped..parsed]
    {
      assert buffer[bufferPtr..bufferEnd] == buffer[..bufferEnd][bufferPtr..];
      assert buffer[..bufferPtr] == buffer[..bufferEnd][..bufferPtr];
    }

    constructor ()
      ensures Valid() && stream == [] && parsed == 0 && fresh(buffer) && !failed
    {
      buffer := new Byte[0];
      bufferPtr, bufferEnd, failed := 0, 0, false;
      stream, parsed, dropped := [], 0, 0;
    }

    /**
     * XML_GetBuffer: makes room for `len` more bytes.  The unparsed bytes and the last 1024 parsed
     * ones, or as many as there are, stay where they are, move, or go into a larger buffer.
     */
    method GetBuffer(len: nat) returns (at: nat)
      requires Valid()
      modifies this`buffer, this`bufferPtr, this`bufferEnd, this`dropped, buffer
      ensures Valid() && (buffer == old(buffer) || fresh(buffer))
      ensures at == bufferEnd && at + len <= buffer.Length
      ensures Min(1024, old(bufferPtr)) <= bufferPtr
    {
      if len > buffer.Length - bufferEnd {
        var keep := bufferPtr;
        if keep > XML_CONTEXT_BYTES {
          keep := XML_CONTEXT_BYTES;
        }
        var neededSize := len + (bufferEnd - bufferPtr) + keep;
        if neededSize <= buffer.Length {
          if keep < bufferPtr {
            MoveDown(bufferPtr - keep);
          }
        } else {
          var bufferSize := buffer.Length - bufferPtr;
          if bufferSize == 0 {
            bufferSize := INIT_BUFFER_SIZE;
          }
          bufferSize := bufferSize * 2;
          while bufferSize < neededSize
            invariant bufferSize > 0
            decreases neededSize - bufferSize
          {
            bufferSize := bufferSize * 2;
          }
          CopyToNew(bufferSize, keep);
        }
      }
      at := bufferEnd;
    }

    /** memmove to the start of the buffer, byte by byte. */
    method MoveDown(offset: nat)
      requires Valid() && 0 < offset <= bufferPtr
      modifies this`bufferPtr, this`bufferEnd, this`dropped, buffer
      ensures Valid() && bufferPtr == old(bufferPtr) - offset && bufferEnd == old(bufferEnd) - offset
    {
      ghost var was := buffer[..];
      var n := bufferEnd - offset;
      var i := 0;
      while i < n
        invariant 0 <= i <= n
        invariant forall k | 0 <= k < i :: buffer[k] == was[k + offset]
        invariant forall k | i <= k < buffer.Length :: buffer[k] == was[k]
        modifies buffer
      {
        buffer[i] := buffer[i + offset];
        i := i + 1;
      }
      assert buffer[..n] == was[offset..bufferEnd] == was[..bufferEnd][offset..];
      assert stream[dropped..][offset..] == stream[dropped + offset..];
      bufferPtr, bufferEnd, dropped := bufferPtr - offset, n, dropped + offset;
    }

    /** memcpy of what is kept into a new buffer. */
    method CopyToNew(bufferSize: nat, keep: nat)
      requires Valid() && keep <= bufferPtr && bufferEnd - bufferPtr + keep <= bufferSize
      modifies this`buffer, this`bufferPtr, this`bufferEnd, this`dropped
      ensures Valid() && fresh(buffer) && buffer.Length == bufferSize
      ensures bufferPtr == keep && bufferEnd == old(bufferEnd) - old(bufferPtr) + keep
    {
      var newBuf := new Byte[bufferSize];
      var from := bufferPtr - keep;
      var n := bufferEnd - from;
      var i := 0;
      while i < n
        invariant 0 <= i <= n
        invariant forall k | 0 <= k < i :: newBuf[k] == buffer[from + k]
        modifies newBuf
      {
        newBuf[i] := buffer[from + i];
        i := i + 1;
      }
      assert newBuf[..n] == buffer[from..bufferEnd] == buffer[..bufferEnd][from..];
      assert stream[dropped..][from..] == stream[dropped + from..];
      buffer, bufferPtr, bufferEnd, dropped := newBuf, keep, n, dropped + from;
    }

    /**
     * XML_ParseBuffer: the caller has written `len` bytes behind the window.  The processor sees
     * the unparsed bytes followed by the new ones, and no others.
     */
    method ParseBuffer(len: nat, isFinal: bool, process: (seq<Byte>, bool) -> Verdict) returns (ok: bool)
      requires Valid() && bufferEnd + len <= buffer.Length && IsProcessor(process)
      modifies this`bufferEnd, this`bufferPtr, this`failed, this`stream, this`parsed
      ensures Valid()
      ensures stream == old(stream) + old(buffer[bufferEnd..bufferEnd + len])
      ensures var v := process(old(stream)[old(parsed)..] + old(buffer[bufferEnd..bufferEnd + len]), isFinal);
              && ok == (!old(failed) && v.Consumed?) && failed == !ok
              && parsed == old(parsed) + if ok && !isFinal then v.n else 0
    {
      WindowIsRest();
      ghost var more := buffer[bufferEnd..bufferEnd + len];
      ghost var rest := stream[parsed..];
      assert buffer[..bufferEnd + len] == buffer[..bufferEnd] + more;
      assert (stream + more)[dropped..] == stream[dropped..] + more;
      assert (stream + more)[parsed..] == rest + more;
      bufferEnd := bufferEnd + len;
      stream := stream + more;
      WindowIsRest();
      var v := process(buffer[bufferPtr..bufferEnd], isFinal);
      ok := !failed && v.Consumed?;
      if ok {
        if !isFinal {
          bufferPtr := bufferPtr + v.n;
          parsed := parsed + v.n;
        }
      } else {
        failed := true;
      }
    }

    /** The end of the input, without further bytes. */
    method EndInput(process: (seq<Byte>, bool) -> Verdict) returns (ok: bool)
      requires Valid()
      modifies this`failed
      ensures Valid()
      ensures ok == (!old(failed) && process(stream[parsed..], true).Consumed?) && failed == !ok
    {
      WindowIsRest();
      ok := !failed && process(buffer[bufferPtr..bufferEnd], true).Consumed?;
      failed := !ok;
    }

    /**
     * XML_Parse: the bytes are copied behind the window.  Without any, only the end of the input
     * makes the processor run; otherwise nothing happens, not even after an error.
     */
    method Parse(s: seq<Byte>, isFinal: bool, process: (seq<Byte>, bool) -> Verdict) returns (ok: bool)
      requires Valid() && IsProcessor(process)
      modifies this, buffer
      ensures Valid() && (buffer == old(buffer) || fresh(buffer))
      ensures stream == old(stream) + s
      ensures |s| == 0 && !isFinal ==> ok && failed == old(failed) && parsed == old(parsed)
      ensures |s| > 0 || isFinal ==>
                var v := process(old(stream)[old(parsed)..] + s, isFinal);
                && ok == (!old(failed) && v.Consumed?) && failed == !ok
                && parsed == old(parsed) + if ok && !isFinal then v.n else 0
    {
      if |s| == 0 {
        assert stream + s == stream && stream[parsed..] + s == stream[parsed..];
        ok := true;
        if isFinal {
          ok := EndInput(process);
        }
        return;
      }
      var at := GetBuffer(|s|);
      CopyIn(s);
      ok := ParseBuffer(|s|, isFinal, process);
    }

    /** memcpy of new bytes behind the window. */
    method CopyIn(s: seq<Byte>)
      requires Valid() && bufferEnd + |s| <= buffer.Length
      modifies buffer
      ensures Valid() && buffer[bufferEnd..bufferEnd + |s|] == s
    {
      ghost var was := buffer[..bufferEnd];
      var i := 0;
      while i < |s|
        invariant 0 <= i <= |s|
        invariant buffer[..bufferEnd] == was && buffer[bufferEnd..bufferEnd + i] == s[..i]
        modifies buffer
      {
        buffer[bufferEnd + i] := s[i];
        i := i + 1;
      }
    }

    /**
     * Any number of pieces, each with the processor of its call: as long as nothing fails, each call
     * lets the processor go on with what the calls before it have left, and the stream is the pieces
     * in order.
     */
    method ParseAll(pieces: seq<seq<Byte>>, process: (nat, seq<Byte>, bool) -> Verdict) returns (ok: bool)
      requires Valid() && !failed && AreProcessors(process)
      modifies this, buffer
      ensures Valid()
      ensures ok == !failed && (ok ==> stream == old(stream) + Joined(pieces))
      ensures ok ==> stream[parsed..] == Left(process, 0, old(stream)[old(parsed)..], pieces)
    {
      ok := true;
      var i := 0;
      assert pieces[0..] == pieces;
      while i < |pieces|
        invariant 0 <= i <= |pieces| && Valid() && (buffer == old(buffer) || fresh(buffer)) && ok == !failed == true
        invariant old(stream) + Joined(pieces) == stream + Joined(pieces[i..])
        invariant Left(process, 0, old(stream)[old(parsed)..], pieces) == Left(process, i, stream[parsed..], pieces[i..])
      {
        ghost var rest, consumed := stream[parsed..], parsed;
        assert pieces[i..][0] == pieces[i] && pieces[i..][1..] == pieces[i + 1..];
        ok := Parse(pieces[i], false, (b: seq<Byte>, isFinal: bool) => process(i, b, isFinal));
        if !ok {
          return;
        }
        assert stream[parsed..] == (rest + pieces[i])[parsed - consumed..];
        i := i + 1;
      }
      assert pieces[i..] == [];
    }
  }

  function Joined(pieces: seq<seq<Byte>>): seq<Byte> {
    if |pieces| == 0 then [] else pieces[0] + Joined(pieces[1..])
  }

  /** What the processors leave of a stream that arrives in pieces; an empty piece runs none. */
  function Left(process: (nat, seq<Byte>, bool) -> Verdict, i: nat, rest: seq<Byte>, pieces: seq<seq<Byte>>): seq<Byte>
    decreases |pieces|
  {
    if |pieces| == 0 then rest
    else
      var bytes := rest + pieces[0];
      var v := process(i, bytes, false);
      Left(process, i + 1, if |pieces[0]| > 0 && v.Consumed? && v.n <= |bytes| then bytes[v.n..] else bytes, pieces[1..])
  }
}
