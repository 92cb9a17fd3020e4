// http_chunk.c: the response body in the write queue, plain or in the chunked transfer
// coding of RFC 7230, section 4.1, and the switch to it in connections.c.

module HttpChunk {
  import opened Wrappers
  import opened Buffers
  import opened Parts
  import opened ChunkQueue
  import opened Texts

  // ---- buffer_append_uint_hex ----

  function Pow16(n: nat): nat {
    if n == 0 then 1 else 16 * Pow16(n - 1)
  }

  // The n lowest hexadecimal digits of v.
  function HexDigits(v: nat, n: nat): (s: Bytes)
    ensures |s| == n
  {
    if n == 0 then [] else HexDigits(v / 16, n - 1) + [HexChar(v % 16)]
  }

  // The number of nibbles: two for every byte.
  function Nibbles(v: nat): nat {
    if v / 256 == 0 then 2 else 2 + Nibbles(v / 256)
  }

  lemma {:induction false} NibblesFit(v: nat)
    ensures v < Pow16(Nibbles(v)) && Nibbles(v) >= 2
  {
    assert Pow16(2) == 256;
    if v / 256 != 0 {
      NibblesFit(v / 256);
      var n := Nibbles(v / 256);
      assert Pow16(n + 2) == 16 * Pow16(n + 1) == 256 * Pow16(n);
    }
  }

  // value >> 4 * k
  function ShiftRight(v: nat, k: nat): nat {
    if k == 0 then v else ShiftRight(v / 16, k - 1)
  }

  // Digit i from the left, as the shifting loop computes it.
  lemma {:induction false} HexDigitAt(v: nat, n: nat, i: nat)
    requires i < n
    ensures HexDigits(v, n)[i] == HexChar(ShiftRight(v, n - 1 - i) % 16)
  {
    if i < n - 1 {
      HexDigitAt(v / 16, n - 1, i);
    }
  }

  method UintHex(value: nat) returns (s: Bytes)
    ensures s == HexDigits(value, Nibbles(value))
  {
    var copy: nat, nibbles: nat := value / 256, 2;
    while copy != 0
      invariant nibbles + (if copy == 0 then 0 else Nibbles(copy)) == Nibbles(value)
      decreases copy
    {
      copy, nibbles := copy / 256, nibbles + 2;
    }
    s := [];
    var shift := nibbles;
    while shift > 0
      invariant 0 <= shift <= nibbles && |s| == nibbles - shift
      invariant s == HexDigits(value, nibbles)[..nibbles - shift]
    {
      shift := shift - 1;
      HexDigitAt(value, nibbles, nibbles - 1 - shift);
      s := s + [HexChar(ShiftRight(value, shift) % 16)];
    }
  }

  // ---- the decoder of RFC 7230 ----

  // How many hexadecimal digits the text starts with.
  function DigitCount(s: Bytes): (n: nat)
    ensures n <= |s|
  {
    if s == [] || DigitValue(s[0]) == 16 then 0 else 1 + DigitCount(s[1..])
  }

  function HexValue(s: Bytes): nat
    requires DigitCount(s) == |s|
  {
    if s == [] then 0
    else
      DigitCountPrefix(s);
      16 * HexValue(s[..|s| - 1]) + DigitValue(s[|s| - 1])
  }

  lemma {:induction false} DigitCountPrefix(s: Bytes)
    requires DigitCount(s) == |s| && s != []
    ensures DigitCount(s[..|s| - 1]) == |s| - 1 && DigitValue(s[|s| - 1]) < 16
  {
    if |s| > 1 {
      DigitCountPrefix(s[1..]);
      assert s[1..][..|s| - 2] == s[..|s| - 1][1..];
    }
  }

  // chunked-body without extensions and trailers: the decoded data.
  function Decode(s: Bytes): Option<Bytes>
    decreases |s|
  {
    var n := DigitCount(s);
    DigitsTaken(s, n);
    if n == 0 || n + 2 > |s| || s[n..n + 2] != "\r\n" then None
    else
      var size, rest := HexValue(s[..n]), s[n + 2..];
      if size == 0 then (if rest == "\r\n" then Some([]) else None)
      else if size + 2 > |rest| || rest[size..size + 2] != "\r\n" then None
      else
        match Decode(rest[size + 2..])
        case None => None
        case Some(more) => Some(rest[..size] + more)
  }

  lemma {:induction false} DigitsTaken(s: Bytes, n: nat)
    requires n <= DigitCount(s)
    ensures DigitCount(s[..n]) == n
  {
    if n > 0 {
      DigitsTaken(s[1..], n - 1);
      assert s[..n][1..] == s[1..][..n - 1];
    }
  }

  // ---- one chunk ----

  lemma {:induction false} HexDigitsCount(v: nat, n: nat)
    ensures DigitCount(HexDigits(v, n)) == n
  {
    if n > 0 {
      HexDigitsCount(v / 16, n - 1);
      DigitCountSnoc(HexDigits(v / 16, n - 1), HexChar(v % 16));
    }
  }

  lemma {:induction false} DigitCountSnoc(s: Bytes, c: char)
    requires DigitCount(s) == |s|
    ensures DigitCount(s + [c]) == if DigitValue(c) < 16 then |s| + 1 else |s|
  {
    if s != [] {
      DigitCountSnoc(s[1..], c);
      assert (s + [c])[1..] == s[1..] + [c];
    }
  }

  lemma {:induction false} HexDigitsValue(v: nat, n: nat)
    requires v < Pow16(n)
    ensures DigitCount(HexDigits(v, n)) == n && HexValue(HexDigits(v, n)) == v
  {
    HexDigitsCount(v, n);
    if n > 0 {
      HexDigitsValue(v / 16, n - 1);
      assert HexDigits(v, n)[..n - 1] == HexDigits(v / 16, n - 1);
    }
  }

  predicate LowerHex(s: Bytes) {
    forall i :: 0 <= i < |s| ==> s[i] in "0123456789abcdef"
  }

  // The digits of a size: two for each of its bytes, the first of which is not zero unless it
  // is the only one.
  lemma UintHexMeans(v: nat)
    ensures var s := HexDigits(v, Nibbles(v));
            && DigitCount(s) == |s| && HexValue(s) == v && LowerHex(s)
            && |s| >= 2 && |s| % 2 == 0 && (|s| == 2 || s[0] != '0' || s[1] != '0')
  {
    NibblesFit(v);
    HexDigitsValue(v, Nibbles(v));
    LowerDigits(v, Nibbles(v));
    FirstByte(v);
  }

  lemma {:induction false} LowerDigits(v: nat, n: nat)
    ensures LowerHex(HexDigits(v, n))
  {
    if n > 0 {
      LowerDigits(v / 16, n - 1);
      HexCharTable(v % 16);
    }
  }

  lemma {:induction false} FirstByte(v: nat)
    ensures Nibbles(v) >= 2 && Nibbles(v) % 2 == 0
    ensures var s := HexDigits(v, Nibbles(v)); |s| == 2 || s[0] != '0' || s[1] != '0'
  {
    if v / 256 != 0 {
      var n := Nibbles(v / 256);
      FirstByte(v / 256);
      TwoMore(v, n);
      if n == 2 {
        ByteDigits(v / 256);
      }
    }
  }

  lemma TwoMore(v: nat, n: nat)
    ensures HexDigits(v / 256, n) <= HexDigits(v, n + 2)
  {
    assert v / 16 / 16 == v / 256;
    assert HexDigits(v, n + 2) == HexDigits(v / 16, n + 1) + [HexChar(v % 16)];
    assert HexDigits(v / 16, n + 1) == HexDigits(v / 16 / 16, n) + [HexChar(v / 16 % 16)];
  }

  lemma ByteDigits(v: nat)
    requires 0 < v < 256
    ensures var s := HexDigits(v, 2); s[0] != '0' || s[1] != '0'
  {
    assert HexDigits(v, 2) == [HexChar(v / 16 % 16), HexChar(v % 16)] by {
      assert HexDigits(v / 16, 1) == [] + [HexChar(v / 16 % 16)];
    }
    assert v == v / 16 * 16 + v % 16;
  }

  lemma {:induction false} DigitsThenOther(s: Bytes, t: Bytes)
    requires DigitCount(s) == |s| && (t == [] || DigitValue(t[0]) == 16)
    ensures DigitCount(s + t) == |s|
  {
    if s == [] {
      assert s + t == t;
    } else {
      assert (s + t)[1..] == s[1..] + t;
      DigitsThenOther(s[1..], t);
    }
  }

  function SizeLine(n: nat): Bytes {
    HexDigits(n, Nibbles(n)) + "\r\n"
  }

  function Prefixed(d: Bytes, more: Option<Bytes>): Option<Bytes> {
    if more.Some? then Some(d + more.value) else None
  }

  // The bytes w decode to d, whatever comes after them.
  ghost predicate Frames(w: Bytes, d: Bytes) {
    forall rest :: Decode(w + rest) == Prefixed(d, Decode(rest))
  }

  lemma FramesNothing()
    ensures Frames([], [])
  {
    forall rest: Bytes
      ensures Decode([] + rest) == Prefixed([], Decode(rest))
    {
      assert [] + rest == rest;
      assert Decode(rest).Some? ==> [] + Decode(rest).value == Decode(rest).value;
    }
  }

  lemma FramesConcat(w: Bytes, d: Bytes, w': Bytes, d': Bytes)
    requires Frames(w, d) && Frames(w', d')
    ensures Frames(w + w', d + d')
  {
    forall rest
      ensures Decode(w + w' + rest) == Prefixed(d + d', Decode(rest))
    {
      var tail := w' + rest;
      assert Decode(tail) == Prefixed(d', Decode(rest));
      assert Decode(w + tail) == Prefixed(d, Decode(tail));
      Associate(w, w', rest);
      if Decode(rest).Some? {
        Associate(d, d', Decode(rest).value);
      }
    }
  }

  // Decoding one size line, its data and the rest.
  lemma DecodeChunk(hex: Bytes, d: Bytes, rest: Bytes)
    requires DigitCount(hex) == |hex| > 0 && HexValue(hex) == |d| > 0
    ensures var s := hex + ("\r\n" + (d + ("\r\n" + rest)));
            Decode(s) == Prefixed(d, Decode(rest))
  {
    var tail := d + ("\r\n" + rest);
    var s := hex + ("\r\n" + tail);
    DigitsThenOther(hex, "\r\n" + tail);
    Slices(hex, tail);
    Slices(d, rest);
    hide DigitCount, HexValue, DigitValue;
    assert s[..DigitCount(s)] == hex && s[DigitCount(s) + 2..] == tail;
  }

  lemma Slices(a: Bytes, b: Bytes)
    ensures var s := a + ("\r\n" + b);
            s[..|a|] == a && s[|a|..|a| + 2] == "\r\n" && s[|a| + 2..] == b
  {
  }

  // A chunk as the server writes it.
  lemma FramesChunk(d: Bytes)
    requires d != []
    ensures Frames(SizeLine(|d|) + d + "\r\n", d)
  {
    var hex := HexDigits(|d|, Nibbles(|d|));
    NibblesFit(|d|);
    HexDigitsValue(|d|, Nibbles(|d|));
    forall rest
      ensures Decode(SizeLine(|d|) + d + "\r\n" + rest) == Prefixed(d, Decode(rest))
    {
      DecodeChunk(hex, d, rest);
      Associate(hex + "\r\n" + d, "\r\n", rest);
      Associate(hex + "\r\n", d, "\r\n" + rest);
      Associate(hex, "\r\n", d + ("\r\n" + rest));
    }
  }

  // The terminating chunk decodes to nothing.
  lemma DecodeLast()
    ensures Decode("0\r\n\r\n") == Some([])
  {
    var s := "0\r\n\r\n";
    assert s[1..][0] == '\r' && DigitCount(s[1..]) == 0 && DigitCount(s) == 1;
    assert s[..1] == "0" && s[1..3] == "\r\n" && s[3..] == "\r\n";
    assert "0"[1..] == [] && HexValue("0") == 0 by {
      assert DigitCount("0"[1..]) == 0;
      assert "0"[..0] == [];
    }
  }

  lemma Closed(w: Bytes, d: Bytes)
    requires Frames(w, d)
    ensures Decode(w + "0\r\n\r\n") == Some(d)
  {
    DecodeLast();
    hide Decode;
    assert d + [] == d;
  }

  // A size line of zero ends the body: the coding is broken by anything after it.
  ghost predicate Ends(w: Bytes, d: Bytes) {
    Decode(w) == Some(d) && forall rest :: rest != [] ==> Decode(w + rest) == None
  }

  lemma ZeroSize(rest: Bytes)
    ensures Decode("00\r\n\r\n" + rest) == if rest == [] then Some([]) else None
  {
    var s := "00\r\n\r\n" + rest;
    assert s[1..][1..][0] == '\r' && DigitCount(s[1..][1..]) == 0;
    assert DigitCount(s[1..]) == 1 && DigitCount(s) == 2;
    assert s[..2] == "00" && s[2..4] == "\r\n" && s[4..] == "\r\n" + rest;
    ZeroDigits();
    assert rest == [] <==> "\r\n" + rest == "\r\n" by {
      assert |"\r\n" + rest| == 2 + |rest|;
    }
  }

  lemma TwoZeros()
    ensures HexDigits(0, 2) == "00" && Nibbles(0) == 2 && Pow16(2) > 0
  {
    assert HexChar(0) == '0';
    assert HexDigits(0, 0) + ['0'] == "0" && "0" + ['0'] == "00";
  }

  lemma ZeroDigits()
    ensures DigitCount("00") == 2 && HexValue("00") == 0
    ensures SizeLine(0) == "00\r\n"
  {
    TwoZeros();
    hide HexDigits, Nibbles, DigitCount, HexValue;
    HexDigitsValue(0, 2);
  }

  // The client takes the body to end at some byte of w.
  ghost predicate CutShort(w: Bytes) {
    exists p, d :: p <= w && Ends(p, d)
  }

  lemma StaysCut(w: Bytes, more: Bytes)
    requires CutShort(w)
    ensures CutShort(w + more)
    ensures more != [] ==> Decode(w + more) == None
  {
    hide Decode;
    var p, d :| p <= w && Ends(p, d);
    assert p <= w + more;
    var rest := w[|p|..];
    assert w == p + rest;
    Associate(p, rest, more);
    assert more != [] ==> rest + more != [] by {
      assert |rest + more| == |rest| + |more|;
    }
  }

  lemma EmptyChunk(w: Bytes, d: Bytes)
    requires Frames(w, d)
    ensures Ends(w + SizeLine(0) + "\r\n", d) && CutShort(w + SizeLine(0) + "\r\n")
  {
    var zero := "00\r\n\r\n";
    ZeroDigits();
    hide Decode, HexDigits, DigitCount, HexValue, SizeLine;
    assert w + "00\r\n" + "\r\n" == w + zero;
    forall rest: Bytes
      ensures Decode(w + zero + rest) == if rest == [] then Some(d) else None
    {
      Associate(w, zero, rest);
      ZeroSize(rest);
      assert d + [] == d;
    }
    assert w + zero + [] == w + zero;
  }

  // What was sent and queued for a body: it, or a chunked coding of it that goes on, or one
  // that was cut short.
  ghost predicate Carries(chunked: bool, cut: bool, w: Bytes, body: Bytes) {
    if cut then chunked && CutShort(w) else if chunked then Frames(w, body) else w == body
  }

  // What is written for d, as a chunk or not.
  function Written(chunked: bool, d: Bytes): Bytes {
    if chunked then SizeLine(|d|) + d + "\r\n" else d
  }

  lemma Extended(chunked: bool, cut: bool, w: Bytes, body: Bytes, d: Bytes)
    requires Carries(chunked, cut, w, body)
    ensures Carries(chunked, cut || (chunked && d == []), w + Written(chunked, d), body + d)
  {
    if cut {
      StaysCut(w, Written(chunked, d));
    } else if chunked {
      Associate(w, SizeLine(|d|) + d, "\r\n");
      Associate(w, SizeLine(|d|), d);
      if d == [] {
        EmptyChunk(w, body);
        assert w + SizeLine(0) + d == w + SizeLine(0);
      } else {
        FramesChunk(d);
        FramesConcat(w, body, Written(chunked, d), d);
      }
    }
  }

  // ---- the response body ----

  class Response {
    const queue: Queue             // write_queue
    const uploadTempFileSize: nat
    const bufmin: bool             // FDEVENT_STREAM_RESPONSE_BUFMIN
    var chunked: bool              // HTTP_TRANSFER_ENCODING_CHUNKED
    ghost var sent: Bytes          // taken from the queue by the network so far
    ghost var body: Bytes          // everything appended so far

    ghost var cut: bool            // an empty range of a file was asked for

    ghost predicate Valid()
      reads this, queue, queue.heap
    {
      queue.Valid() && Carries(chunked, cut, sent + queue.Contents(), body)
    }

    constructor (queue: Queue, uploadTempFileSize: nat, bufmin: bool)
      requires queue.Valid() && queue.Contents() == []
      ensures Valid() && this.queue == queue && !chunked && !cut && sent == [] && body == []
    {
      this.queue, this.uploadTempFileSize, this.bufmin := queue, uploadTempFileSize, bufmin;
      chunked, cut, sent, body := false, false, [], [];
    }

    // http_chunk_append_len
    method AppendLen(len: nat)
      requires queue.Valid()
      modifies queue, queue.heap
      ensures queue.Valid() && queue.Contents() == old(queue.Contents()) + SizeLine(len)
    {
      var hex := UintHex(len);
      queue.AppendBuffer(hex + "\r\n", AlignSize(|hex| + 3));
    }

    // http_chunk_append_file_fd_range: for an empty range a chunk of size zero is written,
    // the end of the body.
    method AppendFdRange(name: Bytes, offset: nat, len: nat)
      requires Valid() && offset + len <= |name|
      modifies this`body, this`cut, queue, queue.heap
      ensures Valid() && body == old(body) + name[offset..offset + len]
      ensures cut == (old(cut) || (chunked && len == 0))
    {
      hide Carries, SizeLine, SoundLists, Concat, Framed;
      ghost var q, d := queue.Contents(), name[offset..offset + len];
      if chunked {
        AppendLen(len);
      }
      queue.AppendFile(name, offset, len);
      if chunked {
        queue.AppendMem("\r\n");
      }
      Queued(sent, q, d, queue.Contents());
      Extended(chunked, cut, sent + q, body, d);
      body, cut := body + d, cut || (chunked && len == 0);
    }

    lemma Queued(sent: Bytes, q: Bytes, d: Bytes, q': Bytes)
      requires q' == if chunked then q + SizeLine(|d|) + d + "\r\n" else q + d
      ensures sent + q' == sent + q + Written(chunked, d)
    {
      hide SizeLine;
      var x := Written(chunked, d);
      if chunked {
        Associate(q, SizeLine(|d|) + d, "\r\n");
        Associate(q, SizeLine(|d|), d);
      }
      assert q' == q + x;
      Associate(sent, q, x);
    }

    // http_chunk_append_file_range; len == -1 asks for the rest of the file. Only an empty
    // range that is asked for cuts a chunked body short.
    method AppendFileRange(name: Bytes, offset: nat, len: int) returns (ok: bool)
      requires Valid() && len >= -1
      modifies this`body, this`cut, queue, queue.heap
      ensures Valid() && ok == if len == -1 then offset <= |name| else offset + len <= |name|
      ensures cut == (old(cut) || (chunked && ok && len == 0))
      ensures body == old(body) + if !ok then [] else if len == -1 then name[offset..] else name[offset..offset + len]
    {
      if len == -1 {
        if offset >= |name| {
          assert body == body + [];
          return offset == |name|;
        }
        AppendFdRange(name, offset, |name| - offset);
        assert name[offset..offset + (|name| - offset)] == name[offset..];
        return true;
      } else if |name| - offset < len {
        return false;
      }
      AppendFdRange(name, offset, len);
      return true;
    }

    // http_chunk_append_file
    method AppendFile(name: Bytes)
      requires Valid()
      modifies this`body, this`cut, queue, queue.heap
      ensures Valid() && cut == old(cut) && body == old(body) + name
    {
      if |name| != 0 {
        AppendFdRange(name, 0, |name|);
        assert name[0..0 + |name|] == name;
      } else {
        assert body + name == body;
      }
    }

    // http_chunk_append_to_tempfile, all writes succeeding.
    method AppendToTempfile(mem: Bytes, splits: seq<nat>)
      requires Valid() && mem != []
      modifies this`body, queue, queue.heap
      ensures Valid() && body == old(body) + mem
    {
      hide Carries, SizeLine, SoundLists, Concat, Framed;
      ghost var q := queue.Contents();
      if chunked {
        var hex := UintHex(|mem|);
        assert hex + "\r\n" == SizeLine(|mem|) by {
          SizeLineIs(|mem|);
        }
        queue.AppendMemToTempfile(hex + "\r\n", splits, uploadTempFileSize);
      }
      queue.AppendMemToTempfile(mem, splits, uploadTempFileSize);
      if chunked {
        queue.AppendMemToTempfile("\r\n", splits, uploadTempFileSize);
      }
      Queued(sent, q, mem, queue.Contents());
      Extended(chunked, cut, sent + q, body, mem);
      body := body + mem;
    }

    lemma SizeLineIs(n: nat)
      ensures SizeLine(n) == HexDigits(n, Nibbles(n)) + "\r\n"
    {
    }

    // http_chunk_append_data, for a buffer or plain memory.
    method AppendData(mem: Bytes, isBuffer: bool, splits: seq<nat>)
      requires Valid()
      modifies this`body, queue, queue.heap
      ensures Valid() && body == old(body) + mem
    {
      hide Carries, SizeLine, SoundLists, Concat, Framed;
      if |mem| == 0 {
        assert body + mem == body;
        return;
      }
      var temp := false;
      if queue.last.Some? {
        queue.LastData(queue.heap.cells, queue.L());
        var c := queue.heap.cells[queue.last.value];
        temp := c.file && c.isTemp;
      }
      if temp || queue.bytesIn - queue.bytesOut + |mem| > 1024 * (if bufmin then 128 else 64) {
        AppendToTempfile(mem, splits);
        return;
      }
      ghost var q := queue.Contents();
      if chunked {
        AppendLen(|mem|);
      }
      if isBuffer {
        queue.AppendBuffer(mem, AlignSize(|mem| + 1));
      } else {
        queue.AppendMem(mem);
      }
      if chunked {
        queue.AppendMem("\r\n");
      }
      Queued(sent, q, mem, queue.Contents());
      Extended(chunked, cut, sent + q, body, mem);
      body := body + mem;
    }

    // connection_handle_write_prepare, when the length of the body is not known yet:
    // what is already queued becomes the first chunk.
    method SwitchToChunked()
      requires Valid() && !chunked && sent == []
      modifies this`chunked, queue, queue.heap
      ensures Valid() && chunked
    {
      hide Frames, SizeLine, SoundLists, Concat, Framed;
      ghost var q := queue.Contents();
      var qlen := queue.Length();
      chunked := true;
      FramesNothing();
      if qlen != 0 {
        var hex := UintHex(qlen);
        SizeLineIs(qlen);
        queue.PrependBuffer(hex + "\r\n", AlignSize(|hex| + 3));
        queue.AppendMem("\r\n");
        FramesChunk(q);
        assert sent + queue.Contents() == SizeLine(|q|) + q + "\r\n" && sent + q == q;
      } else {
        assert sent + q == [];
      }
    }

    // The network has written the first n bytes of the queue.
    method MarkWritten(n: nat)
      requires Valid() && n <= |queue.Contents()|
      modifies this`sent, queue, queue.heap
      ensures Valid() && sent == old(sent) + old(queue.Contents())[..n]
    {
      hide Carries, SizeLine, SoundLists, Concat, Framed;
      ghost var q := queue.Contents();
      queue.MarkWritten(n);
      assert q == q[..n] + q[n..];
      Associate(sent, q[..n], q[n..]);
      sent := sent + q[..n];
    }

    // http_chunk_close: a chunked decoder finds the body in what was sent and is queued, if
    // and only if no empty range was asked for on the way.
    method Close()
      requires Valid()
      modifies queue, queue.heap
      ensures queue.Valid()
      ensures var w := sent + queue.Contents();
              if !chunked then w == body else Decode(w) == if cut then None else Some(body)
    {
      hide Decode, Frames, CutShort, SoundLists, Concat, Framed;
      ghost var w := sent + queue.Contents();
      if chunked {
        Associate(sent, queue.Contents(), "0\r\n\r\n");
        queue.AppendMem("0\r\n\r\n");
        if cut {
          StaysCut(w, "0\r\n\r\n");
        } else {
          Closed(w, body);
        }
      }
    }
  }

  // So a closed response in which an empty range of a file was asked for is not decoded,
  // whatever comes after.
  method EmptyRangeBreaks(name: Bytes, mem: Bytes) returns (r: Response)
    ensures fresh(r) && r.chunked && r.body == mem && Decode(r.sent + r.queue.Contents()) == None
  {
    var heap := new Store();
    var queue := new Queue(heap);
    r := new Response(queue, 0, false);
    r.SwitchToChunked();
    var ok := r.AppendFileRange(name, 0, 0);
    r.AppendData(mem, false, []);
    r.Close();
  }
}
