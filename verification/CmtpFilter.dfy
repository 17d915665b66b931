/** The filter at either end of a multiplexed connection (filter.go): one side sends a header with an
    encrypted address in front of a stream, the other takes it off, dials and forwards the rest. */
module CmtpFilter {
  import opened Options
  import opened Bytes
  import O = Odometer

  const MAX_HEADERLEN: nat := 1024
  const HDRLEN: nat := 4

  // ---------- the stream ----------

  /** The number a big-endian byte string denotes. */
  function BigNumber(s: seq<byte>): nat
  {
    if s == [] then 0 else BigNumber(s[..|s| - 1]) * 256 + s[|s| - 1] as int
  }

  lemma {:induction false} BigNumberInvertsBigEndian(n: nat, size: nat)
    requires n < Pow256(size)
    ensures BigNumber(O.BigEndian(n, size)) == n
  {
    if size > 0 {
      BigNumberInvertsBigEndian(n / 256, size - 1);
      assert O.BigEndian(n, size)[..size - 1] == O.BigEndian(n / 256, size - 1);
    }
  }

  /** The header as marshalHeader lays it out. */
  function Header(info: seq<byte>): seq<byte>
  {
    O.BigEndian(|info|, HDRLEN) + info
  }

  /** The length the first bytes of a stream announce. */
  function InfoLen(s: seq<byte>): nat
    requires |s| >= HDRLEN
  {
    BigNumber(s[..HDRLEN])
  }

  predicate TooLong(s: seq<byte>) {
    |s| >= HDRLEN && InfoLen(s) > MAX_HEADERLEN * 2
  }

  /** The header is all there. */
  predicate Complete(s: seq<byte>) {
    |s| >= HDRLEN && InfoLen(s) <= MAX_HEADERLEN * 2 && |s| >= HDRLEN + InfoLen(s)
  }

  function Info(s: seq<byte>): seq<byte>
    requires Complete(s)
  {
    s[HDRLEN..HDRLEN + InfoLen(s)]
  }

  function Body(s: seq<byte>): seq<byte>
    requires Complete(s)
  {
    s[HDRLEN + InfoLen(s)..]
  }

  /** Taking the header off undoes putting it in front. */
  lemma HeaderRoundTrip(info: seq<byte>, body: seq<byte>)
    requires |info| <= MAX_HEADERLEN * 2
    ensures var s := Header(info) + body; Complete(s) && Info(s) == info && Body(s) == body
  {
    assert Pow256(2) == 0x1_0000 && Pow256(4) == 0x1_0000_0000;
    BigNumberInvertsBigEndian(|info|, HDRLEN);
    assert (Header(info) + body)[..HDRLEN] == O.BigEndian(|info|, HDRLEN);
  }

  /** The header in bytes: four for the length, high byte first, then the address. */
  lemma HeaderInBytes(info: seq<byte>)
    requires |info| <= 2048
    ensures Header(info) == [0, 0, |info| / 256, |info| % 256] + info
  {
    hide O.BigEndian;
    var n := |info|;
    EndianStep(n, 3);
    EndianStep(n / 256, 2);
    EndianStep(n / 256 / 256, 1);
    EndianStep(n / 256 / 256 / 256, 0);
    assert n / 256 / 256 == 0;
    assert O.BigEndian(0, 0) == [];
  }

  lemma EndianStep(n: nat, size: nat)
    ensures O.BigEndian(n, size + 1) == O.BigEndian(n / 256, size) + [n % 256]
  {
  }

  function Quad(s: seq<byte>): nat
    requires |s| >= 4
  {
    s[0] as int * 0x100_0000 + s[1] as int * 0x1_0000 + s[2] as int * 0x100 + s[3] as int
  }

  /** What four bytes announce, and when it is refused. */
  lemma LengthInBytes(s: seq<byte>)
    requires |s| >= 4
    ensures InfoLen(s) == Quad(s)
    ensures TooLong(s) <==> Quad(s) > 2048
  {
    var t := s[..4];
    assert t[..3][..2] == s[..2] && t[..3][..2][..1] == s[..1] && t[..3] == s[..3];
    assert BigNumber(s[..1]) == s[0] as int && BigNumber(s[..2]) == s[0] as int * 256 + s[1] as int;
    assert s[..3][..2] == s[..2] && s[..4][..3] == s[..3];
    assert BigNumber(s[..3]) == BigNumber(s[..2]) * 256 + s[2] as int;
  }

  /** More bytes only make the body longer. */
  lemma BodyGrows(s: seq<byte>, t: seq<byte>)
    ensures |s| >= HDRLEN ==> InfoLen(s + t) == InfoLen(s)
    ensures Complete(s) ==> Complete(s + t) && Info(s + t) == Info(s) && Body(s + t) == Body(s) + t
  {
    if |s| >= HDRLEN {
      assert (s + t)[..HDRLEN] == s[..HDRLEN];
    }
  }

  // ---------- the connection ----------

  /** The dialled connection. How much of a write it takes is its own affair; it reports an error
      when it takes less than all. */
  class Conn {
    ghost var accepted: seq<byte>
    /** It took less than all of its last write. */
    ghost var refused: bool

    constructor ()
      ensures accepted == []
    {
      accepted := [];
    }

    method Write(p: seq<byte>) returns (n: nat, failed: bool)
      modifies this
      ensures n <= |p| && failed == refused == (n < |p|) && accepted == old(accepted) + p[..n]
    {
      n :| 0 <= n <= |p|;
      accepted := accepted + p[..n];
      failed := n < |p|;
      refused := failed;
    }
  }

  datatype FilterState =
    | Unset | Reset | SendHeader | SendWaitIO | SendBody
    | FillHeader | FillInfo | FmtInfo | FillTail | FillBody

  datatype Error = NoError | HeaderTooLong | DecryptFailed | DialFailed | WriteFailed

  // ---------- the filter ----------

  class TCPFilter {
    const decrypt: seq<byte> -> Option<seq<byte>>
    /** Whether dialling an address gets a connection. */
    const answers: seq<byte> -> bool
    var encryptlen: nat
    /** tf.out */
    var state: FilterState
    var iobuf: seq<byte>
    var ioptr: nat
    var rw: Conn?
    var dstinfo: seq<byte>
    /** tf.in */
    var inState: FilterState
    var inBuf: seq<byte>
    var inPtr: nat
    /** Everything Write has acknowledged by its counts. */
    ghost var acked: seq<byte>

    /** A filter for the disassembling side. */
    constructor (decrypt: seq<byte> -> Option<seq<byte>>, answers: seq<byte> -> bool)
      ensures Valid() && state == Reset && acked == [] && rw == null && inState == Reset
      ensures this.decrypt == decrypt && this.answers == answers
    {
      this.decrypt, this.answers := decrypt, answers;
      encryptlen, state, iobuf, ioptr, rw, dstinfo := 0, Reset, [], 0, null, [];
      inState, inBuf, inPtr := Reset, [], 0;
      acked := [];
    }

    /** What was acknowledged and not yet passed on. */
    ghost function Pending(): seq<byte>
      requires state == FillTail ==> ioptr <= |iobuf|
      reads this
    {
      if state == FillTail then iobuf[ioptr..] else []
    }

    /** The address and the forwarded bytes are functions of the acknowledged stream. */
    ghost predicate Connected()
      reads this, rw
    {
      rw != null && Complete(acked) && Some(dstinfo) == decrypt(Info(acked)) && answers(dstinfo) &&
      (state == FillTail ==> iobuf == acked && ioptr <= |iobuf|) &&
      rw.accepted + Pending() == Body(acked)
    }

    lemma BodyForwarded()
      requires Valid() && state == FillBody
      ensures rw != null && Complete(acked) && Some(dstinfo) == decrypt(Info(acked)) && answers(dstinfo)
      ensures rw.accepted == Body(acked)
    {
    }

    /** In no state is anything acknowledged that was not kept or passed on. */
    ghost predicate Valid()
      reads this, rw
    {
      match state
      case Reset => acked == [] && rw == null
      case FillHeader => iobuf == acked && rw == null && (|acked| < HDRLEN || TooLong(acked))
      case FillInfo =>
        iobuf == acked && rw == null && |acked| >= HDRLEN && !TooLong(acked) && !Complete(acked) &&
        ioptr == HDRLEN + InfoLen(acked)
      case FmtInfo => iobuf == acked && rw == null && Complete(acked) && ioptr == HDRLEN + InfoLen(acked)
      case FillTail => Connected() && ioptr < |iobuf|
      case FillBody => Connected()
      case _ => false
    }

    /** Between calls without errors the filter is reading a header or passing on a body. */
    lemma ReadingOrPassing()
      requires Valid() && (Complete(acked) ==> state == FillBody)
      ensures state in {Reset, FillHeader, FillInfo, FillBody}
    {
    }

    /** Reads the length. `more` is false when the header is complete. */
    method TakeHeader(p: seq<byte>) returns (more: bool, err: Error)
      requires Valid() && (state == Reset || state == FillHeader)
      modifies this
      ensures acked == old(acked) + p && rw == null && Valid()
      ensures !more <==> err == NoError && state == FmtInfo
      ensures err == (if TooLong(acked) then HeaderTooLong else NoError)
    {
      if state == Reset {
        state := FillHeader;
        iobuf := [];
        ioptr := 0;
      }
      acked := acked + p;
      iobuf := iobuf + p;
      BodyGrows(old(acked), p);
      if |iobuf| < HDRLEN {
        return true, NoError;
      }
      encryptlen := BigNumber(iobuf[..HDRLEN]);
      if encryptlen > MAX_HEADERLEN * 2 {
        return true, HeaderTooLong;
      }
      ioptr := encryptlen + HDRLEN;
      if |iobuf| < ioptr {
        state := FillInfo;
        return true, NoError;
      }
      state := FmtInfo;
      return false, NoError;
    }

    /** The header is all there, and its address decrypts to one that answers, or does not. */
    ghost predicate Decrypts(answering: bool)
      reads this
    {
      Complete(acked) && decrypt(Info(acked)).Some? && answers(decrypt(Info(acked)).value) == answering
    }

    /** Decrypts the address and dials. */
    method Dial() returns (err: Error)
      requires Valid() && state == FmtInfo
      modifies this
      ensures Valid() && acked == old(acked)
      ensures err != NoError ==> state == FmtInfo
      ensures err == NoError ==> rw != null && fresh(rw) && state in {FillTail, FillBody} && inState == SendWaitIO
      ensures err in {NoError, DecryptFailed, DialFailed}
      ensures err == DecryptFailed <==> decrypt(Info(acked)) == None
      ensures err == DialFailed <==> Decrypts(false)
    {
      var dstbuf := decrypt(iobuf[HDRLEN..ioptr]);
      if dstbuf.None? {
        return DecryptFailed;
      }
      dstinfo := dstbuf.value;
      if !answers(dstinfo) {
        return DialFailed;
      }
      rw := new Conn();
      inState := SendWaitIO;
      if |iobuf[ioptr..]| == 0 {
        state := FillBody;
      } else {
        state := FillTail;
      }
      return NoError;
    }

    /** Writes what came in the same piece as the end of the header. */
    method WriteTail() returns (failed: bool)
      requires Valid() && state == FillTail
      modifies this, rw
      ensures Valid() && acked == old(acked) && rw == old(rw)
      ensures if failed then state == FillTail && Pending() != [] && rw.refused else state == FillBody
    {
      hide Complete, Info, Body, TooLong, InfoLen;
      while true
        invariant Connected() && state == FillTail && ioptr < |iobuf|
        invariant acked == old(acked) && rw == old(rw)
        decreases |iobuf| - ioptr
      {
        var nw, ew := WriteSome();
        if |iobuf[ioptr..]| == 0 {
          state := FillBody;
          return false;
        }
        if ew {
          if nw == 0 {
            return true;
          }
        }
      }
    }

    method WriteSome() returns (nw: nat, ew: bool)
      requires Connected() && state == FillTail && ioptr < |iobuf|
      modifies this`ioptr, rw
      ensures Connected() && ioptr == old(ioptr) + nw && (nw == 0 ==> ew) && ew == rw.refused
    {
      hide Complete, Info, Body, TooLong, InfoLen;
      nw, ew := rw.Write(iobuf[ioptr..]);
      MovedOn(old(rw.accepted), iobuf, ioptr, nw);
      ioptr := ioptr + nw;
    }

    /** What is written and what is still to come are together what they were. */
    static lemma MovedOn(out: seq<byte>, buf: seq<byte>, i: nat, n: nat)
      requires i + n <= |buf|
      ensures out + buf[i..][..n] + buf[i + n..] == out + buf[i..]
    {
      assert buf[i..] == buf[i..][..n] + buf[i + n..];
    }

    /** Write. It acknowledges `n` bytes of `p`. */
    method Write(p: seq<byte>) returns (n: nat, err: Error)
      requires Valid()
      modifies this, rw
      ensures Valid() && n <= |p| && acked == old(acked) + p[..n]
      ensures rw == old(rw) || (old(rw) == null && fresh(rw))
      // reading the header takes everything; a stalled header or tail takes nothing
      ensures old(state) in {Reset, FillHeader, FillInfo} ==> n == |p|
      ensures old(state) in {FmtInfo, FillTail} ==> n == 0
      ensures old(state) == FillBody ==> (err == NoError <==> n == |p|)
      ensures err == NoError ==> (Complete(acked) ==> state == FillBody)
      // and every error has its cause
      ensures err == HeaderTooLong <==> TooLong(acked)
      ensures err == DecryptFailed ==> Complete(acked) && decrypt(Info(acked)) == None
      ensures err == DialFailed ==> Decrypts(false)
      ensures err == WriteFailed ==> Decrypts(true)
      ensures err == WriteFailed ==> rw != null && rw.refused
    {
      if state == FillBody {
        n, err := WriteBody(p);
        return;
      }
      n, err := 0, NoError;
      if state == Reset || state == FillHeader {
        n := |p|;
        var more;
        more, err := TakeHeader(p);
        if more {
          return;
        }
      } else if state == FillInfo {
        n := |p|;
        var more := TakeInfo(p);
        if more {
          return;
        }
      }
      hide Complete, Info, Body, TooLong, InfoLen;
      if state == FmtInfo {
        err := Dial();
        if err != NoError {
          return;
        }
      }
      if state == FillTail {
        var failed := WriteTail();
        err := if failed then WriteFailed else NoError;
      }
    }

    /** Reads the rest of the address. */
    method TakeInfo(p: seq<byte>) returns (more: bool)
      requires Valid() && state == FillInfo
      modifies this
      ensures acked == old(acked) + p && rw == null && Valid() && !TooLong(acked)
      ensures if more then state == FillInfo else state == FmtInfo
    {
      acked := acked + p;
      iobuf := iobuf + p;
      BodyGrows(old(acked), p);
      if |iobuf| < ioptr {
        return true;
      }
      state := FmtInfo;
      return false;
    }

    /** Behind the header everything goes straight to the connection. */
    method WriteBody(p: seq<byte>) returns (n: nat, err: Error)
      requires Valid() && state == FillBody
      modifies this`acked, rw
      ensures Valid() && n <= |p| && acked == old(acked) + p[..n]
      ensures if n == |p| then err == NoError else err == WriteFailed && rw.refused
      ensures Decrypts(true)
    {
      var failed;
      n, failed := rw.Write(p);
      acked := acked + p[..n];
      BodyGrows(old(acked), p[..n]);
      err := if failed then WriteFailed else NoError;
    }

    // ---------- the assembling side ----------

    /** marshalHeader, with the encrypted address. */
    method MarshalHeader(cipher: seq<byte>)
      modifies this`encryptlen, this`inBuf, this`inPtr, this`inState
      ensures encryptlen == |cipher| && inBuf == Header(cipher) && inPtr == 0 && inState == SendHeader
    {
      encryptlen := |cipher|;
      inBuf := O.BigEndian(encryptlen, HDRLEN) + cipher;
      inPtr := 0;
      inState := SendHeader;
    }

    /** Read while there is header to send: the header goes out in order, piece by piece; then the
        filter waits for a connection, or reads from the one it has. */
    method ReadHeader(p: array<byte>, connected: bool) returns (n: nat)
      requires inState == SendHeader && inPtr <= |inBuf|
      modifies this`inPtr, this`inState, p
      ensures inPtr == old(inPtr) + n <= |inBuf|
      ensures n == if p.Length <= |inBuf| - old(inPtr) then p.Length else |inBuf| - old(inPtr)
      ensures p[..n] == inBuf[old(inPtr)..inPtr] && p[n..] == old(p[n..])
      ensures inState == if inPtr < |inBuf| then SendHeader else if connected then SendBody else SendWaitIO
    {
      n := if p.Length <= |inBuf| - inPtr then p.Length else |inBuf| - inPtr;
      for i := 0 to n
        invariant forall j | 0 <= j < i :: p[j] == inBuf[inPtr + j]
        invariant p[i..] == old(p[i..])
        modifies p
      {
        assert p[i + 1..] == p[i..][1..];
        p[i] := inBuf[inPtr + i];
      }
      inPtr := inPtr + n;
      if inPtr == |inBuf| {
        inState := if connected then SendBody else SendWaitIO;
      }
    }
  }

  function Flatten(pieces: seq<seq<byte>>): seq<byte>
  {
    if pieces == [] then [] else Flatten(pieces[..|pieces| - 1]) + pieces[|pieces| - 1]
  }

  /** The assembling side, read to the end of the header with buffers of any size: what is read is the
      header of the encrypted address, and only then the filter waits for its connection or reads from it. */
  method SendAll(f: TCPFilter, cipher: seq<byte>, connected: bool) returns (pieces: seq<seq<byte>>)
    modifies f
    ensures Flatten(pieces) == Header(cipher)
    ensures f.inState == if connected then SendBody else SendWaitIO
  {
    f.MarshalHeader(cipher);
    pieces := [];
    while f.inState == SendHeader
      invariant f.inState == SendHeader ==> f.inPtr < |f.inBuf|
      invariant f.inState != SendHeader ==> f.inPtr == |f.inBuf|
      invariant f.inState != SendHeader ==> f.inState == if connected then SendBody else SendWaitIO
      invariant f.inPtr <= |f.inBuf| && f.inBuf == Header(cipher) && Flatten(pieces) == f.inBuf[..f.inPtr]
      decreases f.inState == SendHeader, |f.inBuf| - f.inPtr
    {
      var size: nat :| size > 0;
      var p := new byte[size];
      ghost var before := f.inPtr;
      var n := f.ReadHeader(p, connected);
      pieces := pieces + [p[..n]];
      assert pieces[..|pieces| - 1] + [p[..n]] == pieces;
      assert f.inBuf[..before] + f.inBuf[before..f.inPtr] == f.inBuf[..f.inPtr];
    }
  }

  /** The beginning of a stream with a header in front. */
  lemma Beginning(acked: seq<byte>, info: seq<byte>, body: seq<byte>)
    requires acked <= Header(info) + body && |info| <= MAX_HEADERLEN * 2
    ensures !TooLong(acked)
    ensures Complete(acked) ==> Info(acked) == info
    ensures acked == Header(info) + body ==> Complete(acked) && Body(acked) == body
  {
    hide InfoLen;
    var all := Header(info) + body;
    HeaderRoundTrip(info, body);
    BodyGrows(acked, all[|acked|..]);
    assert acked + all[|acked|..] == all;
  }

  /** A caller that hands a stream over in pieces and stops at the first error. However the stream is
      cut, a call without an error takes its whole piece, so the caller gets to the end unless the
      address cannot be decrypted, nothing answers there, or the connection refuses a write. At the end
      the filter has dialled the decrypted address and forwarded exactly the body, in order. */
  method HandOver(f: TCPFilter, pieces: seq<seq<byte>>, ghost info: seq<byte>,
        ghost body: seq<byte>) returns (err: Error, total: nat)
    requires f.Valid() && f.state == Reset && f.acked == [] && f.rw == null
    requires Flatten(pieces) == Header(info) + body && |info| <= MAX_HEADERLEN * 2
    modifies f
    ensures f.Valid() && f.acked <= Header(info) + body && total == |f.acked|
    ensures err in {NoError, DecryptFailed, DialFailed, WriteFailed}
    ensures err == DecryptFailed <==> f.decrypt(info) == None
    ensures err == DialFailed <==> f.decrypt(info).Some? && !f.answers(f.decrypt(info).value)
    ensures err == WriteFailed ==> f.rw != null && f.rw.refused
    ensures err == NoError ==> total == |Header(info) + body|
    ensures err == NoError ==> f.rw != null && f.decrypt(info) == Some(f.dstinfo) && f.rw.accepted == body
  {
    hide TCPFilter.Valid, InfoLen, Header, Info, Body, TooLong;
    err, total := NoError, 0;
    assert Flatten(pieces[..0]) == [];
    for i := 0 to |pieces|
      invariant f.Valid() && (f.rw == null || fresh(f.rw)) && err == NoError
      invariant f.acked == Flatten(pieces[..i]) && total == |f.acked|
      invariant Complete(f.acked) ==> f.state == FillBody
    {
      FlattenPrefix(pieces, i);
      FlattenPrefix(pieces, i + 1);
      f.ReadingOrPassing();
      var n;
      n, err := f.Write(pieces[i]);
      total := total + n;
      assert pieces[..i + 1][..i] == pieces[..i];
      if err != NoError {
        ShortOf(f.acked, Flatten(pieces[..i]), pieces[i], n, Header(info) + body);
        Beginning(f.acked, info, body);
        return;
      }
      assert pieces[i][..n] == pieces[i];
    }
    assert pieces[..|pieces|] == pieces;
    Beginning(f.acked, info, body);
    f.BodyForwarded();
  }

  lemma {:induction false} FlattenPrefix(pieces: seq<seq<byte>>, i: nat)
    requires i <= |pieces|
    ensures Flatten(pieces[..i]) <= Flatten(pieces)
    decreases |pieces| - i
  {
    if i == |pieces| {
      assert pieces[..i] == pieces;
    } else {
      FlattenPrefix(pieces, i + 1);
      assert pieces[..i + 1][..i] == pieces[..i];
    }
  }

  lemma ShortOf(acked: seq<byte>, before: seq<byte>, piece: seq<byte>, n: nat, all: seq<byte>)
    requires n <= |piece| && acked == before + piece[..n] && before + piece <= all
    ensures acked <= all
  {
  }
}
