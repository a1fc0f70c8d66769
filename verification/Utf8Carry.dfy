/** The chunk decoder of `src-tauri/src/agent_http.rs`: bytes arrive cut anywhere,
    and the tail of an unfinished character is carried to the next piece.
    Characters are Unicode scalar values and well-formed bytes are those of
    section 4 of RFC 3629. */
module Utf8Carry {
  newtype byte = b: int | 0 <= b < 256

  predicate Tail(b: byte) { 0x80 <= b <= 0xBF }

  predicate TwoBytes(b: seq<byte>) { |b| >= 2 && 0xC2 <= b[0] <= 0xDF && Tail(b[1]) }

  predicate ThreeBytes(b: seq<byte>) {
    && |b| >= 3 && Tail(b[1]) && Tail(b[2])
    && (b[0] == 0xE0 ==> b[1] >= 0xA0) && (b[0] == 0xED ==> b[1] <= 0x9F)
    && 0xE0 <= b[0] <= 0xEF
  }

  predicate FourBytes(b: seq<byte>) {
    && |b| >= 4 && Tail(b[1]) && Tail(b[2]) && Tail(b[3])
    && (b[0] == 0xF0 ==> b[1] >= 0x90) && (b[0] == 0xF4 ==> b[1] <= 0x8F)
    && 0xF0 <= b[0] <= 0xF4
  }

  /** The length of the character the bytes start with, zero when they start with none. */
  function CharLen(b: seq<byte>): (n: nat)
    ensures n <= |b| && n <= 4
  {
    if b == [] then 0
    else if b[0] <= 0x7F then 1
    else if TwoBytes(b) then 2
    else if ThreeBytes(b) then 3
    else if FourBytes(b) then 4
    else 0
  }

  /** How far the bytes are well formed. */
  function ValidUpTo(b: seq<byte>): (n: nat)
    ensures n <= |b|
  {
    var n := CharLen(b);
    if n == 0 then 0 else n + ValidUpTo(b[n..])
  }

  predicate WellFormed(b: seq<byte>) { ValidUpTo(b) == |b| }

  /** One more tail byte's six bits. */
  function More(n: int, b: byte): int { n * 64 + (b as int - 0x80) }

  function DecodeChar(b: seq<byte>): char
    requires CharLen(b) > 0
  {
    if b[0] <= 0x7F then b[0] as char
    else if TwoBytes(b) then More(b[0] as int - 0xC0, b[1]) as char
    else if ThreeBytes(b) then More(More(b[0] as int - 0xE0, b[1]), b[2]) as char
    else More(More(More(b[0] as int - 0xF0, b[1]), b[2]), b[3]) as char
  }

  /** The text of the well-formed bytes in front. */
  function Decode(b: seq<byte>): string {
    var n := CharLen(b);
    if n == 0 then "" else [DecodeChar(b)] + Decode(b[n..])
  }

  function Lead(n: int, mark: int): byte
    requires 0 <= n && 0 <= mark && n + mark < 256
  {
    (n + mark) as byte
  }

  /** The last six bits as a tail byte. */
  function Last(n: int): byte { (n % 64 + 0x80) as byte }

  /** What is left above the last six bits. */
  function Up(n: int): int { n / 64 }

  function EncodeChar(c: char): seq<byte> {
    var n := c as int;
    if n <= 0x7F then [n as byte]
    else if n <= 0x7FF then [Lead(Up(n), 0xC0), Last(n)]
    else if n <= 0xFFFF then [Lead(Up(Up(n)), 0xE0), Last(Up(n)), Last(n)]
    else [Lead(Up(Up(Up(n))), 0xF0), Last(Up(Up(n))), Last(Up(n)), Last(n)]
  }

  function Encode(s: string): seq<byte> { if s == "" then [] else EncodeChar(s[0]) + Encode(s[1..]) }

  // ---------------------------------------------------------- the encoding

  lemma SixBits(n: int)
    requires 0 <= n
    ensures More(Up(n), Last(n)) == n && Tail(Last(n)) && 0 <= Up(n)
  {
  }

  lemma SixBitsBack(n: int, b: byte)
    requires 0 <= n && Tail(b)
    ensures More(n, b) >= 0 && Up(More(n, b)) == n && Last(More(n, b)) == b
  {
  }

  lemma EdgeOfThree(n: int)
    requires 0x800 <= n <= 0xFFFF && !(0xD800 <= n <= 0xDFFF)
    ensures Up(Up(n)) == 0 ==> Last(Up(n)) >= 0xA0
    ensures Up(Up(n)) == 13 ==> Last(Up(n)) <= 0x9F
  {
  }

  lemma EdgeOfFour(n: int)
    requires 0x10000 <= n <= 0x10FFFF
    ensures Up(Up(Up(n))) == 0 ==> Last(Up(Up(n))) >= 0x90
    ensures Up(Up(Up(n))) == 4 ==> Last(Up(Up(n))) <= 0x8F
  {
  }

  lemma ThreeAreEnough(b: seq<byte>)
    requires ThreeBytes(b)
    ensures var n := More(More(b[0] as int - 0xE0, b[1]), b[2]); 0x800 <= n <= 0xFFFF && !(0xD800 <= n <= 0xDFFF)
  {
  }

  lemma FourAreEnough(b: seq<byte>)
    requires FourBytes(b)
    ensures 0x10000 <= More(More(More(b[0] as int - 0xF0, b[1]), b[2]), b[3]) <= 0x10FFFF
  {
  }

  lemma TwoAreEnough(b: seq<byte>)
    requires TwoBytes(b)
    ensures 0x80 <= More(b[0] as int - 0xC0, b[1]) <= 0x7FF
  {
  }

  lemma EncodedInOne(c: char)
    requires c as int <= 0x7F
    ensures EncodeChar(c) == [c as int as byte]
  {
  }

  lemma EncodedInTwo(c: char, h: int, b1: byte)
    requires 0 <= h < 32 && Tail(b1) && c as int == More(h, b1) && 0x7F < c as int <= 0x7FF
    ensures EncodeChar(c) == [Lead(h, 0xC0), b1]
  {
    hide More, Last, Up, Lead;
    SixBitsBack(h, b1);
  }

  lemma EncodedInThree(c: char, h: int, b1: byte, b2: byte)
    requires 0 <= h < 16 && Tail(b1) && Tail(b2) && c as int == More(More(h, b1), b2) && 0x7FF < c as int <= 0xFFFF
    ensures EncodeChar(c) == [Lead(h, 0xE0), b1, b2]
  {
    hide More, Last, Up, Lead;
    SixBitsBack(h, b1);
    SixBitsBack(More(h, b1), b2);
  }

  lemma EncodedInFour(c: char, h: int, b1: byte, b2: byte, b3: byte)
    requires 0 <= h < 8 && Tail(b1) && Tail(b2) && Tail(b3) && c as int == More(More(More(h, b1), b2), b3) && 0xFFFF < c as int
    ensures EncodeChar(c) == [Lead(h, 0xF0), b1, b2, b3]
  {
    hide More, Last, Up, Lead;
    SixBitsBack(h, b1);
    SixBitsBack(More(h, b1), b2);
    SixBitsBack(More(More(h, b1), b2), b3);
  }

  lemma BytesRoundTrip(b: seq<byte>)
    requires CharLen(b) > 0
    ensures EncodeChar(DecodeChar(b)) == b[..CharLen(b)]
  {
    hide More, Last, Up, EncodeChar;
    if TwoBytes(b) {
      TwoAreEnough(b);
      EncodedInTwo(DecodeChar(b), b[0] as int - 0xC0, b[1]);
    } else if ThreeBytes(b) {
      ThreeAreEnough(b);
      EncodedInThree(DecodeChar(b), b[0] as int - 0xE0, b[1], b[2]);
    } else if b[0] <= 0x7F {
      EncodedInOne(DecodeChar(b));
    } else {
      FourAreEnough(b);
      EncodedInFour(DecodeChar(b), b[0] as int - 0xF0, b[1], b[2], b[3]);
    }
  }

  lemma ShortRoundTrip(c: char, b: seq<byte>)
    requires c as int <= 0x7FF && EncodeChar(c) <= b
    ensures CharLen(b) == |EncodeChar(c)| && DecodeChar(b) == c
  {
    SixBits(c as int);
    hide More, Last, Up;
    assert b[0] == EncodeChar(c)[0];
    if c as int > 0x7F {
      assert b[1] == EncodeChar(c)[1];
    }
  }

  lemma WideRoundTrip(c: char, b: seq<byte>)
    requires 0x7FF < c as int <= 0xFFFF && EncodeChar(c) <= b
    ensures CharLen(b) == 3 && DecodeChar(b) == c
  {
    var n := c as int;
    SixBits(n);
    SixBits(Up(n));
    EdgeOfThree(n);
    hide More, Last, Up;
    assert b[0] == Lead(Up(Up(n)), 0xE0) && b[1] == Last(Up(n)) && b[2] == Last(n);
    assert ThreeBytes(b);
  }

  lemma WidestRoundTrip(c: char, b: seq<byte>)
    requires 0xFFFF < c as int && EncodeChar(c) <= b
    ensures CharLen(b) == 4 && DecodeChar(b) == c
  {
    var n := c as int;
    SixBits(n);
    SixBits(Up(n));
    SixBits(Up(Up(n)));
    EdgeOfFour(n);
    hide More, Last, Up;
    assert b[0] == Lead(Up(Up(Up(n))), 0xF0) && b[1] == Last(Up(Up(n))) && b[2] == Last(Up(n)) && b[3] == Last(n);
    assert FourBytes(b);
  }

  lemma CharRoundTrip(c: char, rest: seq<byte>)
    ensures CharLen(EncodeChar(c) + rest) == |EncodeChar(c)| > 0
    ensures DecodeChar(EncodeChar(c) + rest) == c
  {
    var b := EncodeChar(c) + rest;
    if c as int <= 0x7FF {
      ShortRoundTrip(c, b);
    } else if c as int <= 0xFFFF {
      WideRoundTrip(c, b);
    } else {
      WidestRoundTrip(c, b);
    }
    hide DecodeChar, CharLen;
  }

  /** Every text is written as well-formed bytes that read back as that text. */
  lemma {:induction false} DecodeUndoesEncode(s: string)
    ensures WellFormed(Encode(s)) && Decode(Encode(s)) == s
  {
    hide EncodeChar, DecodeChar, CharLen;
    if s != "" {
      var head, rest := EncodeChar(s[0]), Encode(s[1..]);
      CharRoundTrip(s[0], rest);
      DecodeUndoesEncode(s[1..]);
      assert (head + rest)[|head|..] == rest;
    } else {
      NothingToRead();
    }
  }

  lemma NothingToRead()
    ensures CharLen([]) == 0
  {
  }

  /** Bytes are read as the text whose bytes they are, as far as they are well formed. */
  lemma {:induction false} EncodeUndoesDecode(b: seq<byte>)
    ensures Encode(Decode(b)) == b[..ValidUpTo(b)]
  {
    hide EncodeChar, DecodeChar, CharLen;
    var n := CharLen(b);
    if n > 0 {
      BytesRoundTrip(b);
      EncodeUndoesDecode(b[n..]);
      assert ([DecodeChar(b)] + Decode(b[n..]))[1..] == Decode(b[n..]);
      assert b[..n] + b[n..][..ValidUpTo(b[n..])] == b[..ValidUpTo(b)];
    }
  }

  // ------------------------------------------------------------- the pieces

  lemma CharLenOfLonger(a: seq<byte>, b: seq<byte>)
    requires CharLen(a) > 0
    ensures CharLen(a + b) == CharLen(a) && DecodeChar(a + b) == DecodeChar(a)
  {
    assert forall i :: 0 <= i < |a| ==> (a + b)[i] == a[i];
  }

  /** What is read of some bytes stays read when more bytes come; the reading
      goes on from where it stopped. */
  lemma {:induction false} ReadingGoesOn(a: seq<byte>, b: seq<byte>)
    ensures ValidUpTo(a + b) == ValidUpTo(a) + ValidUpTo(a[ValidUpTo(a)..] + b)
    ensures Decode(a + b) == Decode(a) + Decode(a[ValidUpTo(a)..] + b)
  {
    hide CharLen, DecodeChar;
    var n := CharLen(a);
    if n == 0 {
      assert a[0..] == a && "" + Decode(a + b) == Decode(a + b);
    } else {
      CharLenOfLonger(a, b);
      ReadingGoesOn(a[n..], b);
      assert (a + b)[n..] == a[n..] + b;
      assert a[n..][ValidUpTo(a[n..])..] == a[ValidUpTo(a)..];
    }
  }

  lemma {:induction false} PrefixIsWellFormed(b: seq<byte>)
    ensures WellFormed(b[..ValidUpTo(b)]) && Decode(b[..ValidUpTo(b)]) == Decode(b)
    ensures CharLen(b[ValidUpTo(b)..]) == 0
  {
    EncodeUndoesDecode(b);
    DecodeUndoesEncode(Decode(b));
    RestStarts(b);
  }

  lemma {:induction false} RestStarts(b: seq<byte>)
    ensures CharLen(b[ValidUpTo(b)..]) == 0
  {
    var n := CharLen(b);
    if n == 0 {
      assert b[0..] == b;
    } else {
      RestStarts(b[n..]);
      assert b[n..][ValidUpTo(b[n..])..] == b[ValidUpTo(b)..];
    }
  }

  /** No longer prefix is well formed. */
  lemma NoLongerPrefix(b: seq<byte>, n: nat)
    requires n <= |b| && WellFormed(b[..n])
    ensures n <= ValidUpTo(b)
  {
    ReadingGoesOn(b[..n], b[n..]);
    assert b == b[..n] + b[n..];
  }

  /** The bytes so far, and the texts handed over for them. */
  function Body(pieces: seq<seq<byte>>): seq<byte> {
    if pieces == [] then [] else Body(pieces[..|pieces| - 1]) + pieces[|pieces| - 1]
  }

  function Concat(chunks: seq<string>): string {
    if chunks == [] then "" else Concat(chunks[..|chunks| - 1]) + chunks[|chunks| - 1]
  }

  /** What a piece completes: the text that was not readable before it. */
  function Completed(before: seq<byte>, piece: seq<byte>): string {
    ReadingGoesOn(before, piece);
    Decode(before + piece)[|Decode(before)|..]
  }

  /** The texts for some pieces: one for each piece that completes any. */
  function ChunksOf(pieces: seq<seq<byte>>): seq<string> {
    if pieces == [] then []
    else
      var front, piece := pieces[..|pieces| - 1], pieces[|pieces| - 1];
      var text := Completed(Body(front), piece);
      if text == "" then ChunksOf(front) else ChunksOf(front) + [text]
  }

  /** The bytes not yet readable. */
  function Carry(body: seq<byte>): seq<byte> { body[ValidUpTo(body)..] }

  datatype Piece = Bytes(bytes: seq<byte>) | Broken
  datatype Answer = More | Enough | Fails
  datatype Outcome = Finished | BodyBroke | Stopped | ReaderFailed

  function Sent(pieces: seq<Piece>): (sent: seq<seq<byte>>)
    ensures |sent| == |pieces|
  {
    if pieces == [] then []
    else Sent(pieces[..|pieces| - 1]) + [if pieces[|pieces| - 1].Bytes? then pieces[|pieces| - 1].bytes else []]
  }

  /** The reader wanted more after each of these chunks. */
  predicate Hungry(reader: seq<string> -> Answer, chunks: seq<string>, n: nat) {
    forall k :: 0 < k <= n && k <= |chunks| ==> reader(chunks[..k]) == Answer.More
  }

  lemma OneMorePiece(before: seq<byte>, piece: seq<byte>)
    ensures Completed(before, piece) == Decode(Carry(before) + piece)
    ensures Carry(before + piece) == Carry(Carry(before) + piece)
  {
    hide Decode, ValidUpTo;
    ReadingGoesOn(before, piece);
    var v, rest := ValidUpTo(before), Carry(before) + piece;
    assert before + piece == before[..v] + rest;
    Beyond(before[..v], rest, ValidUpTo(rest));
  }

  lemma Beyond(a: seq<byte>, b: seq<byte>, n: nat)
    requires n <= |b|
    ensures (a + b)[|a| + n..] == b[n..]
  {
  }

  /** The chunks and the carry after the first `used` pieces. */
  ghost predicate Taken(pieces: seq<Piece>, used: nat, chunks: seq<string>, carry: seq<byte>)
    requires used <= |pieces|
  {
    chunks == ChunksOf(Sent(pieces[..used])) && carry == Carry(Body(Sent(pieces[..used])))
  }

  lemma TakeOneMore(pieces: seq<Piece>, used: nat, chunks: seq<string>, carry: seq<byte>, whole: seq<byte>, text: string)
    requires used < |pieces| && pieces[used].Bytes? && Taken(pieces, used, chunks, carry)
    requires whole == carry + pieces[used].bytes && text == Decode(whole[..ValidUpTo(whole)])
    ensures Taken(pieces, used + 1, if text == "" then chunks else chunks + [text], Carry(whole))
  {
    hide ValidUpTo, Decode, Completed, ChunksOf, Body, Sent;
    SentGrows(pieces, used);
    OneMorePiece(Body(Sent(pieces[..used])), pieces[used].bytes);
    PrefixIsWellFormed(whole);
    assert chunks + [] == chunks;
  }

  lemma NothingTaken(pieces: seq<Piece>)
    ensures Taken(pieces, 0, [], [])
  {
    assert pieces[..0] == [];
    NothingToRead();
  }

  /** The reader is asked after every chunk and sees all of them so far; `used`
      counts the pieces taken from the body. */
  method PostStream(pieces: seq<Piece>, reader: seq<string> -> Answer)
    returns (chunks: seq<string>, carry: seq<byte>, used: nat, outcome: Outcome)
    ensures used <= |pieces| && forall i :: 0 <= i < used ==> pieces[i].Bytes?
    ensures Taken(pieces, used, chunks, carry)
    ensures outcome == Finished ==> used == |pieces| && Hungry(reader, chunks, |chunks|)
    ensures outcome == BodyBroke ==> used < |pieces| && pieces[used].Broken? && Hungry(reader, chunks, |chunks|)
    ensures outcome == Stopped ==> chunks != [] && reader(chunks) == Enough && Hungry(reader, chunks, |chunks| - 1)
    ensures outcome == ReaderFailed ==> chunks != [] && reader(chunks) == Fails && Hungry(reader, chunks, |chunks| - 1)
    ensures outcome == Stopped || outcome == ReaderFailed ==> used > 0 && |chunks| == |ChunksOf(Sent(pieces[..used - 1]))| + 1
  {
    hide ValidUpTo, Decode, Taken, Hungry, ChunksOf, Sent, Body;
    chunks, carry, used := [], [], 0;
    NothingTaken(pieces);
    NobodyAsked(reader);
    while used < |pieces|
      invariant used <= |pieces| && forall i :: 0 <= i < used ==> pieces[i].Bytes?
      invariant Taken(pieces, used, chunks, carry)
      invariant Hungry(reader, chunks, |chunks|)
    {
      if pieces[used].Broken? {
        return chunks, carry, used, BodyBroke;
      }
      ghost var was, held := chunks, carry;
      carry := carry + pieces[used].bytes;
      ghost var whole := carry;
      var good := ValidUpTo(carry);
      var text;
      if good == |carry| {
        assert carry[..good] == carry && carry[good..] == [];
        text := Decode(carry);
        carry := [];
      } else {
        text := Decode(carry[..good]);
        carry := carry[good..];
      }
      TakeOneMore(pieces, used, was, held, whole, text);
      used := used + 1;
      if text == "" {
        continue;
      }
      chunks := chunks + [text];
      HungryStill(reader, was, text);
      HowManyTaken(pieces, used - 1, was, held);
      var answer := reader(chunks);
      if answer == Fails {
        return chunks, carry, used, ReaderFailed;
      }
      if answer == Enough {
        return chunks, carry, used, Stopped;
      }
    }
    outcome := Finished;
  }

  lemma NobodyAsked(reader: seq<string> -> Answer)
    ensures Hungry(reader, [], 0)
  {
  }

  lemma HowManyTaken(pieces: seq<Piece>, used: nat, chunks: seq<string>, carry: seq<byte>)
    requires used <= |pieces| && Taken(pieces, used, chunks, carry)
    ensures |chunks| == |ChunksOf(Sent(pieces[..used]))|
  {
  }

  lemma HungryStill(reader: seq<string> -> Answer, chunks: seq<string>, text: string)
    requires Hungry(reader, chunks, |chunks|)
    ensures Hungry(reader, chunks + [text], |chunks|)
    ensures reader(chunks + [text]) == Answer.More ==> Hungry(reader, chunks + [text], |chunks| + 1)
  {
    forall k | 0 < k <= |chunks|
      ensures (chunks + [text])[..k] == chunks[..k]
    {
    }
    assert (chunks + [text])[..|chunks| + 1] == chunks + [text];
  }

  lemma SentGrows(pieces: seq<Piece>, n: nat)
    requires n < |pieces| && pieces[n].Bytes?
    ensures Sent(pieces[..n + 1]) == Sent(pieces[..n]) + [pieces[n].bytes]
    ensures Body(Sent(pieces[..n + 1])) == Body(Sent(pieces[..n])) + pieces[n].bytes
    ensures ChunksOf(Sent(pieces[..n + 1]))
         == ChunksOf(Sent(pieces[..n])) + (var text := Completed(Body(Sent(pieces[..n])), pieces[n].bytes); if text == "" then [] else [text])
  {
    hide Completed;
    var sent := Sent(pieces[..n]);
    assert pieces[..n + 1][..n] == pieces[..n];
    assert (sent + [pieces[n].bytes])[..|sent|] == sent;
  }

  // -------------------------------------------------------- what the reader gets

  /** However a body is cut, the chunks spell the readable part of the whole, and
      no chunk is empty. */
  lemma {:induction false} ChunksSpellTheBody(pieces: seq<seq<byte>>)
    ensures Concat(ChunksOf(pieces)) == Decode(Body(pieces))
    ensures forall chunk :: chunk in ChunksOf(pieces) ==> chunk != ""
  {
    hide Decode;
    if pieces == [] {
      NothingDecoded();
    } else {
      var front, piece := pieces[..|pieces| - 1], pieces[|pieces| - 1];
      ChunksSpellTheBody(front);
      ReadingGoesOn(Body(front), piece);
      var text := Completed(Body(front), piece);
      assert Decode(Body(pieces)) == Decode(Body(front)) + text;
      assert (ChunksOf(front) + [text])[..|ChunksOf(front)|] == ChunksOf(front);
    }
  }

  lemma NothingDecoded()
    ensures Decode([]) == ""
  {
  }

  lemma {:induction false} CarryIsShort(body: seq<byte>, n: nat)
    requires WellFormed(body) && n <= |body|
    ensures |Carry(body[..n])| <= 3
    decreases |body|
  {
    hide DecodeChar;
    var head := CharLen(body);
    if n < head {
    } else if head > 0 {
      var part := body[..n];
      assert CharLen(part) == head by {
        assert body == part + body[n..];
        SameHead(part, body);
      }
      CarryIsShort(body[head..], n - head);
      assert part[head..] == body[head..][..n - head];
      assert Carry(part) == Carry(part[head..]);
    }
  }

  lemma SameHead(part: seq<byte>, body: seq<byte>)
    requires part <= body && CharLen(body) <= |part|
    ensures CharLen(part) == CharLen(body)
  {
    assert forall i :: 0 <= i < |part| ==> part[i] == body[i];
  }

  /** A well-formed body arrives whole, byte for byte, and never more than three
      bytes are waiting after a piece. */
  lemma WellFormedBodyArrives(pieces: seq<seq<byte>>, n: nat)
    requires WellFormed(Body(pieces)) && n <= |pieces|
    ensures Encode(Concat(ChunksOf(pieces))) == Body(pieces)
    ensures |Carry(Body(pieces[..n]))| <= 3
  {
    hide Encode, Decode, ValidUpTo, ChunksOf, Carry, Concat, Body;
    var body, front := Body(pieces), Body(pieces[..n]);
    ChunksSpellTheBody(pieces);
    EncodeUndoesDecode(body);
    BodyOfFront(pieces, n);
    assert body[..|body|] == body && body[..|front|] == front;
    CarryIsShort(Body(pieces), |Body(pieces[..n])|);
  }

  lemma {:induction false} BodyOfFront(pieces: seq<seq<byte>>, n: nat)
    requires n <= |pieces|
    ensures Body(pieces[..n]) <= Body(pieces)
  {
    if n == |pieces| {
      assert pieces[..n] == pieces;
    } else {
      BodyOfFront(pieces[..|pieces| - 1], n);
      assert pieces[..|pieces| - 1][..n] == pieces[..n];
    }
  }

  lemma NoTextNoChar(b: seq<byte>)
    ensures Decode(b) == "" <==> CharLen(b) == 0
  {
  }

  /** Nothing, or a character cut short: a lead byte and as many of its tail bytes
      as have come, the first of them in the range that lead allows. */
  predicate Unfinished(b: seq<byte>) {
    b == [] ||
    (&& |b| <= 3 && 0xC2 <= b[0] <= 0xF4
     && (|b| >= 2 ==>
           && b[0] >= 0xE0 && Tail(b[1])
           && (b[0] == 0xE0 ==> b[1] >= 0xA0) && (b[0] == 0xED ==> b[1] <= 0x9F)
           && (b[0] == 0xF0 ==> b[1] >= 0x90) && (b[0] == 0xF4 ==> b[1] <= 0x8F))
     && (|b| == 3 ==> b[0] >= 0xF0 && Tail(b[2])))
  }

  lemma OnlyUnfinishedFinish(b: seq<byte>, more: seq<byte>)
    requires CharLen(b) == 0 && CharLen(b + more) > 0
    ensures Unfinished(b)
  {
    var whole := b + more;
    if b != [] {
      assert forall i :: 0 <= i < |b| ==> whole[i] == b[i];
    }
  }

  lemma UnfinishedFinish(b: seq<byte>) returns (more: seq<byte>)
    requires Unfinished(b)
    ensures CharLen(b + more) > 0
  {
    if b == [] {
      more := [0x41];
    } else if |b| == 1 {
      more := [if b[0] == 0xE0 then 0xA0 else if b[0] == 0xF0 then 0x90 else 0x80, 0x80, 0x80];
    } else {
      more := [0x80, 0x80];
    }
    var whole := b + more;
    assert forall i :: 0 <= i < |b| ==> whole[i] == b[i];
    assert forall i :: 0 <= i < |more| ==> whole[|b| + i] == more[i];
  }

  /** Nothing more is ever read exactly when what is carried is not a character cut
      short: then no bytes that may still come can complete it. */
  lemma SilencedIff(body: seq<byte>)
    ensures (forall more :: Decode(body + more) == Decode(body)) <==> !Unfinished(Carry(body))
  {
    var carry := Carry(body);
    RestStarts(body);
    forall more
      ensures Decode(body + more) == Decode(body) <==> CharLen(carry + more) == 0
    {
      ReadingGoesOn(body, more);
      NoTextNoChar(carry + more);
    }
    if Unfinished(carry) {
      var more := UnfinishedFinish(carry);
      assert CharLen(carry + more) > 0;
    } else {
      forall more
        ensures CharLen(carry + more) == 0
      {
        if CharLen(carry + more) > 0 {
          OnlyUnfinishedFinish(carry, more);
        }
      }
    }
    hide *;
  }

  /** A carry of four bytes is a byte that starts nothing: no later piece is ever
      read, though the body goes on being taken. */
  lemma MalformedSilencesTheRest(body: seq<byte>, more: seq<byte>)
    requires |Carry(body)| >= 4
    ensures Decode(body + more) == Decode(body) && Carry(body + more) == Carry(body) + more
  {
    var rest := Carry(body);
    RestStarts(body);
    ReadingGoesOn(body, more);
    SameHead(rest, rest + more);
    assert body + more == body[..ValidUpTo(body)] + (rest + more);
  }
}
