/** Debug output over a SLIP line (border-router-server/slip-bridge.c). */
module DebugFraming {
  import opened Words
  import opened AddressText

  /** The packet delimiter of RFC 1055, 0300 in octal. */
  const SLIP_END: uint8 := 0xc0
  const NEWLINE: uint8 := 10
  const RETURN: uint8 := 13

  // ---- The program ----

  class Bridge {
    /** The static `debug_frame`. */
    var debugFrame: bool
    /** Every byte given to `slip_arch_writeb`. */
    var written: seq<uint8>
    /** All characters printed so far, as bytes. */
    ghost var text: seq<uint8>
    /** Every character so far was a byte other than the delimiter. */
    ghost var plain: bool

    /** As long as the text is plain, the receiver has it line by line. */
    ghost predicate Valid()
      reads this
    {
      plain ==> Mirrors(text, debugFrame, written)
    }

    constructor ()
      ensures Valid() && plain && text == [] && !debugFrame && written == []
    {
      debugFrame, written, text, plain := false, [], [], true;
      EmptyMirrors();
    }

    method Putchar(c: int) returns (r: int)
      requires Valid()
      modifies this
      ensures Valid() && r == c && text == old(text) + [ToByte(c)]
      ensures plain <==> old(plain) && 0 <= c < 256 && c != SLIP_END as int
      ensures (debugFrame, written) == Put((old(debugFrame), old(written)), c)
      ensures plain ==> Received(written) == Lines(text) && (debugFrame <==> OpenLine(text))
    {
      hide Mirrors;
      ghost var before := (debugFrame, written);
      if !debugFrame {
        written := written + [SLIP_END];
        written := written + [RETURN];
        assert written == old(written) + [SLIP_END, RETURN];
        debugFrame := true;
      }
      written := written + [ToByte(c)];
      if c == NEWLINE as int {
        written := written + [SLIP_END];
        debugFrame := false;
      }
      plain := plain && 0 <= c < 256 && c != SLIP_END as int;
      if plain {
        assert ToByte(c) as int == c;
        StepMirrors(text, before, ToByte(c));
        MirrorsReceived(text + [ToByte(c)], debugFrame, written);
      }
      text := text + [ToByte(c)];
      return c;
    }
  }

  /** One call of `putchar`: the frame flag and the bytes written so far. */
  function Put(s: (bool, seq<uint8>), c: int): (bool, seq<uint8>) {
    var started := if s.0 then s.1 else s.1 + [SLIP_END, RETURN];
    var written := started + [ToByte(c)];
    if c == NEWLINE as int then (false, written + [SLIP_END]) else (true, written)
  }

  /** The flag and the bytes after printing a text of characters. */
  function Emit(text: seq<uint8>): (bool, seq<uint8>) {
    if text == [] then (false, [])
    else Put(Emit(text[..|text| - 1]), text[|text| - 1] as int)
  }

  // ---- The receiving side ----

  /** The pieces between delimiters. */
  function Cut(bytes: seq<uint8>): (r: seq<seq<uint8>>)
    ensures r != []
  {
    if bytes == [] then [[]]
    else
      var before := Cut(bytes[..|bytes| - 1]);
      var b := bytes[|bytes| - 1];
      if b == SLIP_END then before + [[]]
      else before[..|before| - 1] + [before[|before| - 1] + [b]]
  }

  /** The nonempty pieces without their first byte, which marks a debug line. */
  function Frames(pieces: seq<seq<uint8>>): seq<seq<uint8>> {
    if pieces == [] then []
    else
      var p := pieces[|pieces| - 1];
      Frames(pieces[..|pieces| - 1]) + (if p == [] then [] else [p[1..]])
  }

  function Received(bytes: seq<uint8>): seq<seq<uint8>> {
    Frames(Cut(bytes))
  }

  /** The lines of a text, each with its newline, then the open remainder if there is one. */
  function Lines(text: seq<uint8>): seq<seq<uint8>> {
    if text == [] then []
    else
      var before, c := Lines(text[..|text| - 1]), text[|text| - 1];
      if OpenLine(text[..|text| - 1]) && before != []
      then before[..|before| - 1] + [before[|before| - 1] + [c]]
      else before + [[c]]
  }

  /** The text ends inside a line. */
  predicate OpenLine(text: seq<uint8>) {
    text != [] && text[|text| - 1] != NEWLINE
  }

  function EndCount(bytes: seq<uint8>): nat {
    if bytes == [] then 0
    else EndCount(bytes[..|bytes| - 1]) + (if bytes[|bytes| - 1] == SLIP_END then 1 else 0)
  }

  // ---- Round trip ----

  lemma CutSnoc(bytes: seq<uint8>, b: uint8)
    ensures var before := Cut(bytes);
            Cut(bytes + [b]) == if b == SLIP_END then before + [[]]
                                else before[..|before| - 1] + [before[|before| - 1] + [b]]
  {
    assert (bytes + [b])[..|bytes|] == bytes;
  }

  lemma FramesSnoc(pieces: seq<seq<uint8>>, p: seq<uint8>)
    ensures Frames(pieces + [p]) == Frames(pieces) + (if p == [] then [] else [p[1..]])
  {
    assert (pieces + [p])[..|pieces|] == pieces;
  }

  lemma EndSnoc(bytes: seq<uint8>, b: uint8)
    ensures EndCount(bytes + [b]) == EndCount(bytes) + (if b == SLIP_END then 1 else 0)
  {
    assert (bytes + [b])[..|bytes|] == bytes;
  }

  /** The bytes of an open frame: the last piece is the marker and the open line. */
  ghost predicate OpenFrame(bytes: seq<uint8>, done: seq<seq<uint8>>, line: seq<uint8>) {
    var pieces := Cut(bytes);
    && line != []
    && pieces[|pieces| - 1] == [RETURN] + line
    && Frames(pieces[..|pieces| - 1]) == done
  }

  /** No frame is open: the last piece is empty. */
  ghost predicate ClosedFrame(bytes: seq<uint8>, done: seq<seq<uint8>>) {
    var pieces := Cut(bytes);
    pieces[|pieces| - 1] == [] && Frames(pieces[..|pieces| - 1]) == done
  }

  lemma AppendByte(bytes: seq<uint8>, done: seq<seq<uint8>>, line: seq<uint8>, b: uint8)
    requires OpenFrame(bytes, done, line) && b != SLIP_END
    ensures OpenFrame(bytes + [b], done, line + [b])
  {
    CutSnoc(bytes, b);
    assert ([RETURN] + line) + [b] == [RETURN] + (line + [b]);
  }

  lemma CutMarker(bytes: seq<uint8>)
    ensures Cut(bytes + [SLIP_END, RETURN]) == Cut(bytes) + [[RETURN]]
  {
    hide Cut;
    var p := Cut(bytes);
    var empty: seq<uint8> := [];
    CutSnoc(bytes, SLIP_END);
    CutSnoc(bytes + [SLIP_END], RETURN);
    assert bytes + [SLIP_END, RETURN] == bytes + [SLIP_END] + [RETURN];
    assert (p + [empty])[..|p|] == p;
    assert empty + [RETURN] == [RETURN];
  }

  lemma StartFrame(bytes: seq<uint8>, done: seq<seq<uint8>>, b: uint8)
    requires ClosedFrame(bytes, done) && b != SLIP_END
    ensures OpenFrame(bytes + [SLIP_END, RETURN] + [b], done, [b])
  {
    hide Cut, Frames;
    var p := Cut(bytes);
    var front, empty: seq<uint8> := p[..|p| - 1], [];
    CutMarker(bytes);
    CutSnoc(bytes + [SLIP_END, RETURN], b);
    assert p == front + [empty];
    FramesSnoc(front, empty);
    var q := Cut(bytes + [SLIP_END, RETURN] + [b]);
    assert q[..|q| - 1] == p;
  }

  lemma CloseFrame(bytes: seq<uint8>, done: seq<seq<uint8>>, line: seq<uint8>)
    requires OpenFrame(bytes, done, line)
    ensures ClosedFrame(bytes + [SLIP_END], done + [line])
  {
    var p := Cut(bytes);
    CutSnoc(bytes, SLIP_END);
    assert p == p[..|p| - 1] + [[RETURN] + line];
    FramesSnoc(p[..|p| - 1], [RETURN] + line);
    assert ([RETURN] + line)[1..] == line;
    var q := Cut(bytes + [SLIP_END]);
    assert q[..|q| - 1] == p;
  }

  /** What has been written mirrors the text: its lines, and the open one in an open frame. */
  ghost predicate Mirrors(text: seq<uint8>, open: bool, bytes: seq<uint8>) {
    var lines := Lines(text);
    && open == OpenLine(text)
    && (if open then lines != [] && OpenFrame(bytes, lines[..|lines| - 1], lines[|lines| - 1])
        else ClosedFrame(bytes, lines))
    && (EndCount(bytes) % 2 == 0 <==> !open)
  }

  lemma LinesSnoc(text: seq<uint8>, c: uint8)
    ensures var lines := Lines(text);
            Lines(text + [c]) == if OpenLine(text) && lines != []
                                 then lines[..|lines| - 1] + [lines[|lines| - 1] + [c]]
                                 else lines + [[c]]
    ensures OpenLine(text + [c]) <==> c != NEWLINE
  {
    assert (text + [c])[..|text|] == text;
  }

  /** The bytes up to the printed character: an open frame that ends with it. */
  lemma Grow(text: seq<uint8>, s: (bool, seq<uint8>), c: uint8)
    returns (bytes: seq<uint8>, done: seq<seq<uint8>>, line: seq<uint8>)
    requires Mirrors(text, s.0, s.1) && c != SLIP_END
    ensures bytes == (if s.0 then s.1 else s.1 + [SLIP_END, RETURN]) + [c]
    ensures OpenFrame(bytes, done, line) && Lines(text + [c]) == done + [line]
    ensures EndCount(bytes) % 2 == 1
  {
    hide OpenFrame, ClosedFrame, Lines, OpenLine;
    var lines := Lines(text);
    LinesSnoc(text, c);
    if s.0 {
      bytes, done, line := s.1 + [c], lines[..|lines| - 1], lines[|lines| - 1] + [c];
      AppendByte(s.1, done, lines[|lines| - 1], c);
      EndSnoc(s.1, c);
    } else {
      bytes, done, line := s.1 + [SLIP_END, RETURN] + [c], lines, [c];
      StartFrame(s.1, lines, c);
      EndSnoc(s.1, SLIP_END);
      EndSnoc(s.1 + [SLIP_END], RETURN);
      assert s.1 + [SLIP_END, RETURN] == s.1 + [SLIP_END] + [RETURN];
      EndSnoc(s.1 + [SLIP_END, RETURN], c);
    }
  }

  lemma StepMirrors(text: seq<uint8>, s: (bool, seq<uint8>), c: uint8)
    requires Mirrors(text, s.0, s.1) && c != SLIP_END
    ensures var r := Put(s, c as int);
            Mirrors(text + [c], r.0, r.1)
  {
    hide OpenFrame, ClosedFrame, Lines, OpenLine, EndCount;
    var bytes, done, line := Grow(text, s, c);
    LinesSnoc(text, c);
    assert ToByte(c as int) == c;
    if c == NEWLINE {
      CloseFrame(bytes, done, line);
      EndSnoc(bytes, SLIP_END);
    } else {
      assert (done + [line])[..|done|] == done;
    }
  }

  lemma {:induction false} EmitMirrors(text: seq<uint8>)
    requires SLIP_END !in text
    ensures Mirrors(text, Emit(text).0, Emit(text).1)
  {
    hide Put, OpenLine;
    if text == [] {
      EmptyMirrors();
    } else {
      var front := text[..|text| - 1];
      EmitMirrors(front);
      assert text == front + [text[|text| - 1]];
      StepMirrors(front, Emit(front), text[|text| - 1]);
    }
  }

  lemma EmptyMirrors()
    ensures Mirrors([], false, [])
  {
    var p := Cut([]);
    assert p[..0] == [];
  }

  /** The number of delimiters written is even exactly when no frame is open. */
  lemma EvenEnds(text: seq<uint8>)
    requires SLIP_END !in text
    ensures EndCount(Emit(text).1) % 2 == 0 <==> !Emit(text).0
    ensures Emit(text).0 <==> OpenLine(text)
  {
    hide OpenFrame, ClosedFrame;
    EmitMirrors(text);
  }

  /** What mirrors a text is received as its lines and the open remainder. */
  lemma MirrorsReceived(text: seq<uint8>, open: bool, bytes: seq<uint8>)
    requires Mirrors(text, open, bytes)
    ensures Received(bytes) == Lines(text) && (open <==> OpenLine(text))
  {
    var pieces, lines := Cut(bytes), Lines(text);
    var last := pieces[|pieces| - 1];
    assert pieces == pieces[..|pieces| - 1] + [last];
    FramesSnoc(pieces[..|pieces| - 1], last);
    if open {
      assert last[1..] == lines[|lines| - 1];
      assert lines == lines[..|lines| - 1] + [lines[|lines| - 1]];
    }
  }

  /** Text without the delimiter arrives as its lines and the open remainder. */
  lemma FramingRoundTrip(text: seq<uint8>)
    requires SLIP_END !in text
    ensures Received(Emit(text).1) == Lines(text)
  {
    EmitMirrors(text);
    MirrorsReceived(text, Emit(text).0, Emit(text).1);
  }

  /** The receiver never sees a delimiter inside a frame. */
  lemma {:induction false} CutFree(bytes: seq<uint8>)
    ensures forall p :: p in Cut(bytes) ==> SLIP_END !in p
  {
    if bytes != [] {
      CutFree(bytes[..|bytes| - 1]);
    }
  }

  lemma {:induction false} FramesFree(pieces: seq<seq<uint8>>)
    requires forall p :: p in pieces ==> SLIP_END !in p
    ensures forall p :: p in Frames(pieces) ==> SLIP_END !in p
  {
    if pieces != [] {
      FramesFree(pieces[..|pieces| - 1]);
      assert pieces[|pieces| - 1] in pieces;
    }
  }

  lemma {:induction false} LinesKeep(text: seq<uint8>, x: uint8)
    requires x in text
    ensures exists p :: p in Lines(text) && x in p
  {
    var front, c := text[..|text| - 1], text[|text| - 1];
    var before, lines := Lines(front), Lines(text);
    assert text == front + [c];
    var last := lines[|lines| - 1];
    assert last in lines && c in last;
    if x != c {
      assert x in front;
      LinesKeep(front, x);
      var p :| p in before && x in p;
      var i :| 0 <= i < |before| && before[i] == p;
      assert lines[i] in lines;
      assert x in lines[i];
    }
  }

  /** The text is recovered exactly when it does not contain the delimiter. */
  lemma FramingExact(text: seq<uint8>)
    ensures Received(Emit(text).1) == Lines(text) <==> SLIP_END !in text
  {
    if SLIP_END in text {
      LinesKeep(text, SLIP_END);
      CutFree(Emit(text).1);
      FramesFree(Cut(Emit(text).1));
    } else {
      FramingRoundTrip(text);
    }
  }

  /** Every frame starts with the byte 13, and a delimiter is the byte 192. */
  lemma {:induction false} FramesMarked(text: seq<uint8>)
    requires 192 !in text
    ensures forall p: seq<uint8> :: p in Cut(Emit(text).1) && p != [] ==> p[0] == 13
    ensures Emit(text).1 != [] ==> Emit(text).1[0] == 192
  {
    hide Cut;
    if text == [] {
      assert Cut([]) == [[]] by { CutNothing(); }
    } else {
      var front, c := text[..|text| - 1], text[|text| - 1];
      assert text == front + [c];
      FramesMarked(front);
      PutMarked(front, Emit(front), c);
    }
  }

  lemma CutNothing()
    ensures Cut([]) == [[]]
  {
  }

  /** All pieces start with the marker. */
  ghost predicate Marked(pieces: seq<seq<uint8>>) {
    forall p: seq<uint8> :: p in pieces && p != [] ==> p[0] == 13
  }

  lemma MarkedGrows(bytes: seq<uint8>, b: uint8)
    requires Marked(Cut(bytes))
    requires b == 192 || b == 13 || Cut(bytes)[|Cut(bytes)| - 1] != []
    ensures Marked(Cut(bytes + [b]))
    ensures b != 192 ==> Cut(bytes + [b])[|Cut(bytes + [b])| - 1] != []
  {
    hide Cut;
    CutSnoc(bytes, b);
    var pieces := Cut(bytes);
    var last := pieces[|pieces| - 1];
    assert last in pieces;
    assert forall p :: p in pieces[..|pieces| - 1] ==> p in pieces;
  }

  lemma PutMarked(text: seq<uint8>, s: (bool, seq<uint8>), c: uint8)
    requires Marked(Cut(s.1)) && c != 192 && s == Emit(text) && 192 !in text
    requires s.1 != [] ==> s.1[0] == 192
    ensures var r := Put(s, c as int); Marked(Cut(r.1)) && r.1[0] == 192
  {
    hide Cut, Marked, Emit, Lines, OpenLine;
    if s.0 {
      EmitMirrors(text);
      OpenIsNotEmpty(text, s.1);
      MarkedGrows(s.1, c);
    } else {
      MarkedGrows(s.1, 192);
      MarkedGrows(s.1 + [192], 13);
      assert s.1 + [SLIP_END, RETURN] == s.1 + [192] + [13];
      MarkedGrows(s.1 + [192] + [13], c);
    }
    var bytes := (if s.0 then s.1 else s.1 + [SLIP_END, RETURN]) + [c];
    MarkedGrows(bytes, 192);
    assert ToByte(c as int) == c;
  }

  lemma OpenIsNotEmpty(text: seq<uint8>, bytes: seq<uint8>)
    requires Mirrors(text, true, bytes)
    ensures bytes != [] && Cut(bytes)[|Cut(bytes)| - 1] != []
  {
  }

  // ---- The reply to a request for the MAC address ----

  const MAC_REPLY_LENGTH := 18

  function HexByte(d: nat): uint8
    requires d < 16
  {
    DigitChar(d) as int as uint8
  }

  /** The bytes spelled by pairs of hexadecimal digits; None for any other text. */
  function HexDecode(s: seq<uint8>): Option<seq<uint8>> {
    if s == [] then Some([])
    else if |s| == 1 then None
    else
      var hi, lo := DigitValue(s[|s| - 2] as int as char), DigitValue(s[|s| - 1] as int as char);
      match HexDecode(s[..|s| - 2])
      case Some(front) => if hi < 16 && lo < 16 then Some(front + [(hi * 16 + lo) as uint8]) else None
      case None => None
  }

  lemma HexByteRead(d: nat)
    requires d < 16
    ensures DigitValue(HexByte(d) as int as char) == d
  {
    DigitRead(d);
  }

  lemma EmptyHex()
    ensures HexDecode([]) == Some([])
  {
  }

  /** Two more digits are one more byte. */
  lemma HexDecodeNext(s: seq<uint8>, bytes: seq<uint8>, b: uint8)
    requires HexDecode(s) == Some(bytes)
    ensures HexDecode(s + [HexByte(b as nat / 16), HexByte(b as nat % 16)]) == Some(bytes + [b])
  {
    hide HexByte;
    var t := s + [HexByte(b as nat / 16), HexByte(b as nat % 16)];
    HexByteRead(b as nat / 16);
    HexByteRead(b as nat % 16);
    assert t[..|t| - 2] == s;
  }

  /** The request branch of `slip_input_callback`: the address in digits behind the two type bytes. */
  method AnswerMacRequest(buf: array<uint8>, lladdr: seq<uint8>) returns (length: nat)
    requires buf.Length >= MAC_REPLY_LENGTH && |lladdr| == 8
    modifies buf
    ensures length == MAC_REPLY_LENGTH
    ensures buf[0] == '!' as int as uint8 && buf[1] == old(buf[1])
    ensures HexDecode(buf[2..length]) == Some(lladdr)
    ensures buf[length..] == old(buf[length..])
  {
    hide HexByte, HexDecode;
    buf[0] := '!' as int as uint8;
    var j := 0;
    EmptyHex();
    assert buf[2..2] == lladdr[..0] == [];
    while j < 8
      invariant 0 <= j <= 8
      invariant buf[0] == '!' as int as uint8 && buf[1] == old(buf[1])
      invariant HexDecode(buf[2..2 + j * 2]) == Some(lladdr[..j])
      invariant buf[MAC_REPLY_LENGTH..] == old(buf[MAC_REPLY_LENGTH..])
    {
      ghost var before := buf[2..2 + j * 2];
      buf[2 + j * 2] := HexByte(lladdr[j] as nat / 16);
      buf[3 + j * 2] := HexByte(lladdr[j] as nat % 16);
      assert buf[2..4 + j * 2] == before + [HexByte(lladdr[j] as nat / 16), HexByte(lladdr[j] as nat % 16)];
      HexDecodeNext(before, lladdr[..j], lladdr[j]);
      assert lladdr[..j + 1] == lladdr[..j] + [lladdr[j]];
      j := j + 1;
    }
    assert lladdr[..8] == lladdr;
    length := MAC_REPLY_LENGTH;
  }
}
