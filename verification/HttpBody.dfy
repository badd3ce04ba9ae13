/** Reading an HTTP response body: the header split, the three body modes, and the chunked decoder
    (section 7.1 of RFC 9112). */
module HttpBody {
  import opened Bytes
  import opened Transport

  const CR: byte := 13
  const LF: byte := 10
  const CRLF: seq<byte> := [CR, LF]
  const SEMICOLON: byte := 59

  // ---------------------------------------------------------------- searching

  predicate MatchAt(s: seq<byte>, pattern: seq<byte>, k: nat) {
    k + |pattern| <= |s| && s[k..k + |pattern|] == pattern
  }

  /** First occurrence of the pattern at or after `i`. */
  function Index(s: seq<byte>, pattern: seq<byte>, i: nat): (r: Option<nat>)
    ensures r.Some? ==> i <= r.value && MatchAt(s, pattern, r.value)
    decreases |s| - i
  {
    if i + |pattern| > |s| then None
    else if MatchAt(s, pattern, i) then Some(i)
    else if i == |s| then None
    else Index(s, pattern, i + 1)
  }

  /** An occurrence found in a prefix is the one found in the whole. */
  lemma {:induction false} IndexStable(s: seq<byte>, more: seq<byte>, pattern: seq<byte>, i: nat)
    requires Index(s, pattern, i).Some?
    ensures Index(s + more, pattern, i) == Index(s, pattern, i)
    decreases |s| - i
  {
    assert (s + more)[i..i + |pattern|] == s[i..i + |pattern|];
    if !MatchAt(s, pattern, i) {
      IndexStable(s, more, pattern, i + 1);
    }
  }

  lemma MatchShift(s: seq<byte>, pattern: seq<byte>, off: nat, i: nat)
    requires off + i <= |s|
    ensures MatchAt(s[off..], pattern, i) <==> MatchAt(s, pattern, off + i)
  {
    if off + i + |pattern| <= |s| {
      assert s[off..][i..i + |pattern|] == s[off + i..off + i + |pattern|];
    }
  }

  lemma IndexStep(s: seq<byte>, pattern: seq<byte>, i: nat)
    requires i <= |s|
    ensures Index(s, pattern, i)
            == if i + |pattern| > |s| then None
               else if MatchAt(s, pattern, i) then Some(i)
               else if i == |s| then None
               else Index(s, pattern, i + 1)
  {
    hide MatchAt;
  }

  lemma {:induction false} IndexShift(s: seq<byte>, pattern: seq<byte>, off: nat, i: nat)
    requires off + i <= |s|
    ensures var r := Index(s[off..], pattern, i);
            Index(s, pattern, off + i) == if r.Some? then Some(off + r.value) else None
    decreases |s| - i
  {
    hide MatchAt, Index;
    MatchShift(s, pattern, off, i);
    IndexStep(s, pattern, off + i);
    IndexStep(s[off..], pattern, i);
    if off + i < |s| {
      IndexShift(s, pattern, off, i + 1);
    }
  }

  /** Nothing before the first match. */
  lemma {:induction false} IndexOfFirst(s: seq<byte>, pattern: seq<byte>, i: nat, k: nat)
    requires i <= k && MatchAt(s, pattern, k) && forall j :: i <= j < k ==> !MatchAt(s, pattern, j)
    ensures Index(s, pattern, i) == Some(k)
    decreases k - i
  {
    if i < k {
      IndexOfFirst(s, pattern, i + 1, k);
    }
  }

  // ---------------------------------------------------------------- numbers

  predicate IsSpace(c: byte) {
    c == 32 || 9 <= c <= 13
  }

  /** Value of a hexadecimal digit, or 16. */
  function Hex(c: byte): nat {
    if 48 <= c <= 57 then c - 48
    else if 65 <= c <= 70 then c - 55
    else if 97 <= c <= 102 then c - 87
    else 16
  }

  function SkipSpace(s: seq<byte>): seq<byte> {
    if s != [] && IsSpace(s[0]) then SkipSpace(s[1..]) else s
  }

  function HexPrefix(s: seq<byte>): seq<byte> {
    if s != [] && Hex(s[0]) < 16 then [s[0]] + HexPrefix(s[1..]) else []
  }

  function HexValue(digits: seq<byte>): nat {
    if digits == [] then 0 else 16 * HexValue(digits[..|digits| - 1]) + Hex(digits[|digits| - 1])
  }

  /** `std::stoul(s, nullptr, 16)`: optional white space, sign and 0x, then digits up to the first other
      character; a minus sign negates modulo 2^64; no digits or too large a number is an exception. */
  function StoulHex(s: seq<byte>): Option<nat> {
    var t := SkipSpace(s);
    var negative := t != [] && t[0] == 45;
    var u := if t != [] && (t[0] == 45 || t[0] == 43) then t[1..] else t;
    var v := if |u| > 2 && u[0] == 48 && (u[1] == 120 || u[1] == 88) && Hex(u[2]) < 16 then u[2..] else u;
    var digits := HexPrefix(v);
    if digits == [] || HexValue(digits) >= TWO_64 then None
    else if negative && HexValue(digits) > 0 then Some(TWO_64 - HexValue(digits))
    else Some(HexValue(digits))
  }

  function BeforeSemicolon(line: seq<byte>): seq<byte> {
    if line == [] || line[0] == SEMICOLON then [] else [line[0]] + BeforeSemicolon(line[1..])
  }

  function ChunkSize(line: seq<byte>): Option<nat> {
    StoulHex(BeforeSemicolon(line))
  }

  // ---------------------------------------------------------------- one pass over the stream

  /** A line and what follows its CRLF. */
  function Line(s: seq<byte>): (r: Option<(seq<byte>, seq<byte>)>)
    ensures r.Some? ==> |r.value.1| + 2 + |r.value.0| == |s|
  {
    match Index(s, CRLF, 0)
    case None => None
    case Some(k) => Some((s[..k], s[k + 2..]))
  }

  /** Lines up to and including the first empty one. */
  function Trailer(s: seq<byte>): Option<seq<byte>>
    decreases |s|
  {
    match Line(s)
    case None => None
    case Some((line, rest)) => if line == [] then Some(rest) else Trailer(rest)
  }

  /** What the bytes after a size line give for a chunk of positive size, `off` bytes into the buffer.
      `Overrun`: the sum of offset and size wraps around, so the length check passes and the copy runs
      outside the buffer. */
  datatype ChunkResult = Chunk(data: seq<byte>, rest: seq<byte>) | BadChunk | Overrun

  function TakeChunk(rest: seq<byte>, off: nat, size: nat): ChunkResult {
    if (off + size + 2) % TWO_64 > off + |rest| then BadChunk
    else if off + size + 2 >= TWO_64 then Overrun
    else if rest[size..size + 2] != CRLF then BadChunk
    else Chunk(rest[..size], rest[size + 2..])
  }

  /** `Undefined` comes from an overrun. */
  datatype Outcome = Done(body: seq<byte>, rest: seq<byte>) | Failed | Undefined

  /** `taken` bytes of the buffer lie before `s`. */
  function Decode(s: seq<byte>, taken: nat, body: seq<byte>): Outcome
    decreases |s|
  {
    match Line(s)
    case None => Failed
    case Some((line, rest)) =>
      var off := taken + |s| - |rest|;
      match ChunkSize(line)
      case None => Failed
      case Some(size) =>
        if size == 0 then
          (match Trailer(rest)
           case None => Failed
           case Some(end) => Done(body, end))
        else
          (match TakeChunk(rest, off, size)
           case BadChunk => Failed
           case Overrun => Undefined
           case Chunk(data, next) => Decode(next, off + size + 2, body + data))
  }

  // ---------------------------------------------------------------- the decoder

  /** The bytes that have not been used yet: the rest of the buffer, then what the connection will bring. */
  ghost function Unread(conn: Connection, stash: seq<byte>, off: nat): seq<byte>
    requires off <= |stash|
    reads conn
  {
    stash[off..] + conn.incoming
  }

  method ReadMore(conn: Connection, stash: seq<byte>) returns (ok: bool, stash': seq<byte>)
    modifies conn`incoming
    ensures stash <= stash' && stash' + conn.incoming == stash + old(conn.incoming)
    ensures if ok then |conn.incoming| < |old(conn.incoming)| else old(conn.incoming) == [] && stash' == stash
  {
    var tmp := conn.Read(4096);
    ok, stash' := tmp != [], stash + tmp;
  }

  /** `std::search`: the size of the buffer stands for "not found". */
  method Search(stash: seq<byte>, off: nat, pattern: seq<byte>) returns (k: nat)
    requires off <= |stash| && pattern != []
    ensures var r := Index(stash, pattern, off); k == if r.Some? then r.value else |stash|
  {
    k := off;
    while k + |pattern| <= |stash|
      invariant off <= k <= |stash|
      invariant Index(stash, pattern, k) == Index(stash, pattern, off)
    {
      if stash[k..k + |pattern|] == pattern {
        return;
      }
      k := k + 1;
    }
    k := |stash|;
  }

  lemma FoundInside(s: seq<byte>, k: nat)
    requires Index(s, CRLF, 0) == Some(k)
    ensures k + 2 <= |s|
  {
  }

  lemma AroundLine<T>(stash: seq<T>, off: nat, n: nat, incoming: seq<T>)
    requires off + n + 2 <= |stash|
    ensures (stash[off..] + incoming)[..n] == stash[off..off + n]
    ensures (stash[off..] + incoming)[n + 2..] == stash[off + n + 2..] + incoming
  {
  }

  /** A line is found in the buffer exactly when it is the first line of all unread bytes. */
  lemma LineInBuffer(stash: seq<byte>, off: nat, incoming: seq<byte>)
    requires off <= |stash|
    ensures var k, s := Index(stash, CRLF, off), stash[off..] + incoming;
            && (k.Some? ==> off <= k.value <= |stash| - 2
                            && Line(s) == Some((stash[off..k.value], stash[k.value + 2..] + incoming)))
            && (k.None? && incoming == [] ==> Line(s) == None)
  {
    var view := stash[off..];
    var s := view + incoming;
    hide Index, MatchAt;
    IndexShift(stash, CRLF, off, 0);
    if Index(stash, CRLF, off).Some? {
      var k := Index(stash, CRLF, off).value;
      IndexStable(view, incoming, CRLF, 0);
      var n := k - off;
      FoundInside(view, n);
      AroundLine(stash, off, n, incoming);
    } else if incoming == [] {
      assert s == view;
    }
  }

  method ReadLineCRLF(conn: Connection, stash: seq<byte>, off: nat)
    returns (ok: bool, stash': seq<byte>, off': nat, line: seq<byte>)
    requires off <= |stash|
    modifies conn`incoming
    ensures off <= off' <= |stash'| && stash <= stash'
    ensures var s := old(Unread(conn, stash, off));
            match Line(s)
            case None => !ok
            case Some((first, rest)) =>
              ok && line == first && Unread(conn, stash', off') == rest && off' == off + |s| - |rest|
  {
    hide Index, Line;
    stash', off', line := stash, off, [];
    while true
      invariant stash <= stash' && off' == off
      invariant Unread(conn, stash', off) == old(Unread(conn, stash, off))
      decreases |conn.incoming|
    {
      LineInBuffer(stash', off, conn.incoming);
      var k := Search(stash', off, CRLF);
      if k != |stash'| {
        line := stash'[off..k];
        off' := k + 2;
        return true, stash', off', line;
      }
      ghost var before := stash' + conn.incoming;
      ok, stash' := ReadMore(conn, stash');
      if !ok {
        return;
      }
      assert stash'[off..] + conn.incoming == before[off..];
    }
  }

  method EnsureN(conn: Connection, stash: seq<byte>, need: nat) returns (ok: bool, stash': seq<byte>)
    modifies conn`incoming
    ensures stash <= stash' && stash' + conn.incoming == stash + old(conn.incoming)
    ensures ok <==> need <= |stash| + |old(conn.incoming)|
    ensures ok ==> need <= |stash'|
  {
    stash', ok := stash, true;
    while |stash'| < need
      invariant stash <= stash' && stash' + conn.incoming == stash + old(conn.incoming) && ok
      decreases |conn.incoming|
    {
      ok, stash' := ReadMore(conn, stash');
      if !ok {
        return;
      }
    }
  }

  method ReadTrailer(conn: Connection, stash: seq<byte>, off: nat) returns (ok: bool, stash': seq<byte>, off': nat)
    requires off <= |stash|
    modifies conn`incoming
    ensures off <= off' <= |stash'|
    ensures match Trailer(old(Unread(conn, stash, off)))
            case None => !ok
            case Some(rest) => ok && Unread(conn, stash', off') == rest
  {
    hide Line;
    stash', off' := stash, off;
    while true
      invariant off <= off' <= |stash'|
      invariant Trailer(Unread(conn, stash', off')) == Trailer(old(Unread(conn, stash, off)))
      decreases |Unread(conn, stash', off')|
    {
      LineShrinks(Unread(conn, stash', off'));
      var line;
      ok, stash', off', line := ReadLineCRLF(conn, stash', off');
      if !ok || line == [] {
        return;
      }
    }
  }

  lemma LineShrinks(s: seq<byte>)
    ensures Line(s).Some? ==> |Line(s).value.1| < |s|
  {
  }

  lemma SlicesInBuffer(stash: seq<byte>, off: nat, size: nat, incoming: seq<byte>)
    requires off + size + 2 <= |stash|
    ensures var rest := stash[off..] + incoming;
            && |rest| >= size + 2 && rest[..size] == stash[off..off + size]
            && rest[size..size + 2] == stash[off + size..off + size + 2]
            && rest[size + 2..] == stash[off + size + 2..] + incoming
  {
  }

  /** Chunk data and the CRLF behind it. */
  method ReadChunk(conn: Connection, stash: seq<byte>, off: nat, size: nat, out: seq<byte>)
    returns (ok: bool, defined: bool, stash': seq<byte>, off': nat, out': seq<byte>)
    requires off <= |stash|
    modifies conn`incoming
    ensures off <= off' <= |stash'|
    ensures match TakeChunk(old(Unread(conn, stash, off)), off, size)
            case Chunk(data, rest) =>
              ok && defined && out' == out + data && off' == off + size + 2 && Unread(conn, stash', off') == rest
            case BadChunk => !ok && defined
            case Overrun => !ok && !defined
  {
    off', out', defined := off, out, true;
    ghost var rest, before := Unread(conn, stash, off), stash + conn.incoming;
    ok, stash' := EnsureN(conn, stash, (off + size + 2) % TWO_64);
    if !ok {
      return;
    }
    assert Unread(conn, stash', off) == before[off..] == rest;
    if off + size + 2 >= TWO_64 {
      ok, defined := false, false;
      return;
    }
    SlicesInBuffer(stash', off, size, conn.incoming);
    out' := out + stash'[off..off + size];
    off' := off + size;
    if stash'[off'..off' + 2] != CRLF {
      ok := false;
      return;
    }
    off' := off' + 2;
  }

  /** `decodeChunked`: whatever pieces the stream arrives in, the result is that of one pass over the
      unread bytes; `off` never passes the end of the buffer. `defined` is false where the code would
      leave defined behaviour. */
  method DecodeChunked(conn: Connection, stash: seq<byte>, off: nat)
    returns (ok: bool, defined: bool, stash': seq<byte>, off': nat, out: seq<byte>)
    requires off <= |stash|
    modifies conn`incoming
    ensures off <= off' <= |stash'|
    ensures match Decode(old(Unread(conn, stash, off)), off, [])
            case Done(body, rest) => ok && defined && out == body && Unread(conn, stash', off') == rest
            case Failed => !ok && defined
            case Undefined => !ok && !defined
  {
    hide Line, ChunkSize, Trailer, TakeChunk;
    stash', off', out, ok, defined := stash, off, [], false, true;
    while true
      invariant off <= off' <= |stash'| && defined
      invariant Decode(Unread(conn, stash', off'), off', out) == Decode(old(Unread(conn, stash, off)), off, [])
      decreases |Unread(conn, stash', off')|
    {
      LineShrinks(Unread(conn, stash', off'));
      var sizeLine;
      ok, stash', off', sizeLine := ReadLineCRLF(conn, stash', off');
      if !ok {
        return;
      }
      var chunkSize := ChunkSize(sizeLine);
      if chunkSize.None? {
        ok := false;
        return;
      }
      if chunkSize.value == 0 {
        ok, stash', off' := ReadTrailer(conn, stash', off');
        return;
      }
      ChunkShrinks(Unread(conn, stash', off'), off', chunkSize.value);
      ok, defined, stash', off', out := ReadChunk(conn, stash', off', chunkSize.value, out);
      if !ok {
        return;
      }
    }
  }

  lemma ChunkShrinks(rest: seq<byte>, off: nat, size: nat)
    ensures var r := TakeChunk(rest, off, size); r.Chunk? ==> |r.rest| <= |rest| && off + size + 2 < TWO_64
  {
  }

  // ---------------------------------------------------------------- round trip

  /** A chunk as a sender may print it: any spelling of its size, any extension. */
  datatype SentChunk = SentChunk(digits: seq<byte>, extension: seq<byte>, data: seq<byte>)

  predicate NoCRLF(line: seq<byte>) {
    forall k :: 0 <= k < |line| ==> !MatchAt(line, CRLF, k)
  }

  predicate SizeLine(digits: seq<byte>, extension: seq<byte>, size: nat) {
    && digits != [] && (forall i :: 0 <= i < |digits| ==> Hex(digits[i]) < 16) && HexValue(digits) == size
    && (extension == [] || extension[0] == SEMICOLON) && NoCRLF(extension)
  }

  predicate WellFormed(c: SentChunk) {
    c.data != [] && SizeLine(c.digits, c.extension, |c.data|)
  }

  function ChunkBytes(c: SentChunk): seq<byte> {
    c.digits + c.extension + CRLF + c.data + CRLF
  }

  /** The last chunk with its trailer lines. */
  function LastBytes(digits: seq<byte>, extension: seq<byte>, trailers: seq<seq<byte>>): seq<byte> {
    digits + extension + CRLF + TrailerBytes(trailers)
  }

  function TrailerBytes(trailers: seq<seq<byte>>): seq<byte> {
    if trailers == [] then CRLF else trailers[0] + CRLF + TrailerBytes(trailers[1..])
  }

  function Body(chunks: seq<SentChunk>): seq<byte> {
    if chunks == [] then [] else chunks[0].data + Body(chunks[1..])
  }

  function AllChunks(chunks: seq<SentChunk>): seq<byte> {
    if chunks == [] then [] else ChunkBytes(chunks[0]) + AllChunks(chunks[1..])
  }

  /** A line without CRLF inside is read back, even when it ends in CR. */
  lemma LineRoundTrip(line: seq<byte>, rest: seq<byte>)
    requires NoCRLF(line)
    ensures Line(line + CRLF + rest) == Some((line, rest))
  {
    var s := line + CRLF + rest;
    assert s[|line|..|line| + 2] == CRLF;
    forall j | 0 <= j < |line|
      ensures !MatchAt(s, CRLF, j)
    {
      if j + 1 < |line| {
        assert s[j..j + 2] == line[j..j + 2];
        assert !MatchAt(line, CRLF, j);
      } else {
        assert s[j + 1] == CR;
        assert s[j..j + 2][1] == CR;
      }
    }
    IndexOfFirst(s, CRLF, 0, |line|);
    assert s[..|line|] == line && s[|line| + 2..] == rest;
  }

  lemma {:induction false} DigitsOnly(digits: seq<byte>, extension: seq<byte>)
    requires forall i :: 0 <= i < |digits| ==> Hex(digits[i]) < 16
    requires extension == [] || extension[0] == SEMICOLON
    ensures BeforeSemicolon(digits + extension) == digits && HexPrefix(digits) == digits
  {
    if digits == [] {
      assert digits + extension == extension;
    } else {
      assert (digits + extension)[1..] == digits[1..] + extension;
      DigitsOnly(digits[1..], extension);
    }
  }

  lemma SizeRoundTrip(digits: seq<byte>, extension: seq<byte>, size: nat)
    requires SizeLine(digits, extension, size) && size < TWO_64
    ensures ChunkSize(digits + extension) == Some(size) && NoCRLF(digits + extension)
  {
    DigitsOnly(digits, extension);
    assert Hex(digits[0]) < 16;
    assert |digits| > 2 ==> Hex(digits[1]) < 16;
    assert StoulHex(digits) == Some(size) by {
      assert !IsSpace(digits[0]);
      assert SkipSpace(digits) == digits;
    }
    var line := digits + extension;
    forall k | 0 <= k < |line|
      ensures !MatchAt(line, CRLF, k)
    {
      if k < |digits| {
        assert Hex(digits[k]) < 16;
        assert k + 2 <= |line| ==> line[k..k + 2][0] == digits[k];
      } else {
        var j := k - |digits|;
        assert !MatchAt(extension, CRLF, j);
        assert k + 2 <= |line| ==> line[k..k + 2] == extension[j..j + 2];
      }
    }
  }

  lemma {:induction false} TrailerRoundTrip(trailers: seq<seq<byte>>, rest: seq<byte>)
    requires forall i :: 0 <= i < |trailers| ==> trailers[i] != [] && NoCRLF(trailers[i])
    ensures Trailer(TrailerBytes(trailers) + rest) == Some(rest)
  {
    hide Line, NoCRLF;
    if trailers == [] {
      NothingHasNoCRLF();
      LineRoundTrip([], rest);
      assert [] + CRLF + rest == CRLF + rest;
    } else {
      var others := TrailerBytes(trailers[1..]) + rest;
      LineRoundTrip(trailers[0], others);
      assert TrailerBytes(trailers) + rest == trailers[0] + CRLF + others;
      TrailerRoundTrip(trailers[1..], rest);
    }
  }

  lemma NothingHasNoCRLF()
    ensures NoCRLF([])
  {
  }

  lemma DecodeOne(c: SentChunk, rest: seq<byte>, taken: nat, body: seq<byte>)
    requires WellFormed(c) && taken + |ChunkBytes(c)| < TWO_64
    ensures Decode(ChunkBytes(c) + rest, taken, body) == Decode(rest, taken + |ChunkBytes(c)|, body + c.data)
  {
    hide Decode, TakeChunk, Line, ChunkSize, SizeLine, NoCRLF;
    var line, after, size := c.digits + c.extension, c.data + CRLF + rest, |c.data|;
    var s := ChunkBytes(c) + rest;
    SizeRoundTrip(c.digits, c.extension, size);
    LineRoundTrip(line, after);
    assert s == line + CRLF + after;
    var off := taken + |s| - |after|;
    assert off + size + 2 == taken + |ChunkBytes(c)|;
    TakeWhole(c.data, rest, off);
    DecodeStep(s, taken, body, line, after, size);
  }

  lemma TakeWhole(data: seq<byte>, rest: seq<byte>, off: nat)
    requires off + |data| + 2 < TWO_64
    ensures TakeChunk(data + CRLF + rest, off, |data|) == Chunk(data, rest)
  {
    var s := data + CRLF + rest;
    assert s[|data|..|data| + 2] == CRLF && s[..|data|] == data && s[|data| + 2..] == rest;
  }

  lemma DecodeStep(s: seq<byte>, taken: nat, body: seq<byte>, line: seq<byte>, after: seq<byte>, size: nat)
    requires Line(s) == Some((line, after)) && ChunkSize(line) == Some(size)
    ensures var off := taken + |s| - |after|;
            && (size == 0 && Trailer(after).Some? ==> Decode(s, taken, body) == Done(body, Trailer(after).value))
            && (size > 0 && TakeChunk(after, off, size).Chunk? ==>
                  var c := TakeChunk(after, off, size);
                  Decode(s, taken, body) == Decode(c.rest, off + size + 2, body + c.data))
            && (size > 0 && TakeChunk(after, off, size).Overrun? ==> Decode(s, taken, body) == Undefined)
  {
    hide Line, ChunkSize, TakeChunk, Trailer;
  }

  lemma {:induction false} DecodeAll(chunks: seq<SentChunk>, rest: seq<byte>, taken: nat, body: seq<byte>)
    requires forall i :: 0 <= i < |chunks| ==> WellFormed(chunks[i])
    requires taken + |AllChunks(chunks)| < TWO_64
    ensures Decode(AllChunks(chunks) + rest, taken, body)
            == Decode(rest, taken + |AllChunks(chunks)|, body + Body(chunks))
    decreases |chunks|
  {
    hide Decode, ChunkBytes;
    if chunks == [] {
      assert AllChunks(chunks) + rest == rest && body + [] == body;
    } else {
      var c, others := chunks[0], AllChunks(chunks[1..]) + rest;
      assert AllChunks(chunks) + rest == ChunkBytes(c) + others;
      DecodeOne(c, others, taken, body);
      DecodeAll(chunks[1..], rest, taken + |ChunkBytes(c)|, body + c.data);
      assert body + c.data + Body(chunks[1..]) == body + Body(chunks);
    }
  }

  /** Any body, cut into any non-empty chunks, with any spelling of the sizes, any extensions and any
      trailers, comes back whole, and the decoder stops right behind it. */
  lemma ChunkedRoundTrip(chunks: seq<SentChunk>, zeros: seq<byte>, extension: seq<byte>, trailers: seq<seq<byte>>,
                         rest: seq<byte>, taken: nat)
    requires forall i :: 0 <= i < |chunks| ==> WellFormed(chunks[i])
    requires SizeLine(zeros, extension, 0)
    requires forall i :: 0 <= i < |trailers| ==> trailers[i] != [] && NoCRLF(trailers[i])
    requires taken + |AllChunks(chunks)| < TWO_64
    ensures Decode(AllChunks(chunks) + LastBytes(zeros, extension, trailers) + rest, taken, []) == Done(Body(chunks), rest)
  {
    hide Decode, Line, ChunkSize, Trailer, AllChunks, SizeLine, NoCRLF;
    var line, after := zeros + extension, TrailerBytes(trailers) + rest;
    var last := LastBytes(zeros, extension, trailers) + rest;
    assert AllChunks(chunks) + LastBytes(zeros, extension, trailers) + rest == AllChunks(chunks) + last;
    assert last == line + CRLF + after;
    assert [] + Body(chunks) == Body(chunks);
    DecodeAll(chunks, last, taken, []);
    SizeRoundTrip(zeros, extension, 0);
    LineRoundTrip(line, after);
    TrailerRoundTrip(trailers, rest);
    DecodeStep(last, taken + |AllChunks(chunks)|, Body(chunks), line, after, 0);
  }

  /** A chunk on the wire: size and extension, CR LF, the data, CR LF. */
  lemma ChunkOnWire(c: SentChunk)
    ensures ChunkBytes(c) == c.digits + c.extension + [13, 10] + c.data + [13, 10]
  {
  }

  /** The usual spelling of a size in lower-case hexadecimal. */
  function HexDigits(n: nat): seq<byte> {
    (if n < 16 then [] else HexDigits(n / 16)) + [if n % 16 < 10 then 0x30 + n % 16 else 0x61 + (n % 16 - 10)]
  }

  /** It is a spelling of the size, and the decoder reads it as such. */
  lemma {:induction false} HexDigitsSpell(n: nat)
    ensures HexValue(HexDigits(n)) == n
    ensures HexDigits(n) != [] && forall i :: 0 <= i < |HexDigits(n)| ==> Hex(HexDigits(n)[i]) < 16
  {
    if n >= 16 {
      HexDigitsSpell(n / 16);
      assert HexDigits(n)[..|HexDigits(n)| - 1] == HexDigits(n / 16);
    }
  }

  lemma UsualSize(n: nat)
    requires n < TWO_64
    ensures SizeLine(HexDigits(n), [], n) && ChunkSize(HexDigits(n)) == Some(n)
  {
    HexDigitsSpell(n);
    NothingHasNoCRLF();
    hide HexDigits, HexValue, NoCRLF;
    SizeRoundTrip(HexDigits(n), [], n);
    assert HexDigits(n) + [] == HexDigits(n);
  }

  /** `s` begins with the digits of a number, and not with 0x. */
  predicate Begins(s: seq<byte>, digits: seq<byte>) {
    s != [] && Hex(s[0]) < 16 && digits != [] && HexPrefix(s) == digits && (|s| > 1 ==> s[1] != 120 && s[1] != 88)
  }

  function Fitting(n: nat): Option<nat> {
    if n < TWO_64 then Some(n) else None
  }

  /** What the number parser takes: white space, a sign or 0x in front, anything behind; a minus sign negates
      modulo 2^64. */
  lemma SpaceInFront(s: seq<byte>, digits: seq<byte>)
    requires Begins(s, digits)
    ensures StoulHex(s) == StoulHex([0x20] + s) == Fitting(HexValue(digits))
  {
    hide HexPrefix, HexValue;
    assert ([0x20] + s)[1..] == s;
    SkipNothing(s);
  }

  lemma SignInFront(s: seq<byte>, digits: seq<byte>)
    requires Begins(s, digits)
    ensures StoulHex([0x2B] + s) == Fitting(HexValue(digits))
    ensures 0 < HexValue(digits) < TWO_64 ==> StoulHex([0x2D] + s) == Some(TWO_64 - HexValue(digits))
  {
    hide HexPrefix, HexValue, SkipSpace;
    assert ([0x2B] + s)[1..] == s && ([0x2D] + s)[1..] == s;
    SkipNothing([0x2B] + s);
    SkipNothing([0x2D] + s);
  }

  lemma PrefixInFront(s: seq<byte>, digits: seq<byte>)
    requires Begins(s, digits)
    ensures StoulHex([0x30, 0x78] + s) == Fitting(HexValue(digits))
  {
    hide HexPrefix, HexValue, SkipSpace;
    assert ([0x30, 0x78] + s)[2..] == s;
    SkipNothing([0x30, 0x78] + s);
  }

  /** A line that begins with the semicolon, or an empty one, gives no size. */
  lemma NoDigits(extension: seq<byte>)
    ensures ChunkSize([0x3B] + extension) == None && ChunkSize([]) == None
  {
    NoPrefix([]);
  }

  /** Hexadecimal digits followed by something else begin with a number. */
  lemma DigitsBegin(digits: seq<byte>, after: seq<byte>)
    requires digits != [] && (forall i :: 0 <= i < |digits| ==> Hex(digits[i]) < 16)
    requires after == [] || (Hex(after[0]) == 16 && after[0] != 0x78 && after[0] != 0x58)
    ensures Begins(digits + after, digits)
  {
    PrefixOnly(digits, after);
    NoSecondPrefix(digits, after);
  }

  lemma SkipNothing(s: seq<byte>)
    requires s == [] || !IsSpace(s[0])
    ensures SkipSpace(s) == s
  {
  }

  lemma NoPrefix(s: seq<byte>)
    requires s == [] || Hex(s[0]) == 16
    ensures HexPrefix(s) == []
  {
  }

  /** No `x` stands behind the first digit. */
  lemma NoSecondPrefix(digits: seq<byte>, after: seq<byte>)
    requires digits != [] && (forall i :: 0 <= i < |digits| ==> Hex(digits[i]) < 16)
    requires after == [] || (Hex(after[0]) == 16 && after[0] != 0x78 && after[0] != 0x58)
    ensures var s := digits + after; |s| > 1 ==> s[1] != 120 && s[1] != 88
  {
    if |digits| > 1 {
      assert Hex(digits[1]) < 16;
    }
  }

  lemma {:induction false} PrefixOnly(digits: seq<byte>, after: seq<byte>)
    requires forall i :: 0 <= i < |digits| ==> Hex(digits[i]) < 16
    requires after == [] || Hex(after[0]) == 16
    ensures HexPrefix(digits + after) == digits
  {
    if digits == [] {
      assert digits + after == after;
    } else {
      assert (digits + after)[1..] == digits[1..] + after;
      PrefixOnly(digits[1..], after);
    }
  }

  // ---------------------------------------------------------------- where the decoder is undefined

  /** Exactly when the copy of a chunk runs outside the buffer. */
  lemma OverrunExactly(rest: seq<byte>, off: nat, size: nat)
    requires off < TWO_64 && 0 < size < TWO_64
    ensures TakeChunk(rest, off, size).Overrun? <==>
            off + size + 2 >= TWO_64 && (off + size + 2 - TWO_64 <= off + |rest| || off + size + 2 >= 2 * TWO_64)
  {
  }

  function Pow16(n: nat): nat {
    if n == 0 then 1 else 16 * Pow16(n - 1)
  }

  lemma Pow16Of16()
    ensures Pow16(16) == TWO_64
  {
    Pow16Split(8, 8);
    Pow16Split(4, 4);
    assert Pow16(4) == 65536;
  }

  lemma {:induction false} Pow16Split(m: nat, n: nat)
    ensures Pow16(m + n) == Pow16(m) * Pow16(n)
  {
    if m > 0 {
      Pow16Split(m - 1, n);
    }
  }

  function Fs(n: nat): seq<byte> {
    if n == 0 then [] else Fs(n - 1) + [70]
  }

  lemma {:induction false} FsValue(n: nat)
    ensures |Fs(n)| == n && HexValue(Fs(n)) + 1 == Pow16(n)
    ensures forall i :: 0 <= i < n ==> Hex(Fs(n)[i]) < 16
  {
    if n > 0 {
      FsValue(n - 1);
      assert Fs(n)[..n - 1] == Fs(n - 1);
    }
  }

  lemma LongestSize()
    ensures |Fs(16)| == 16 && SizeLine(Fs(16), [], TWO_64 - 1)
  {
    hide Fs, Pow16, HexValue;
    FsValue(16);
    Pow16Of16();
  }

  lemma OneByteIsEnough(x: byte)
    ensures TakeChunk([x], 18, TWO_64 - 1) == Overrun
  {
  }

  /** A size line of sixteen F and one byte after it are enough. */
  lemma OverrunExists(x: byte)
    ensures Decode(Fs(16) + CRLF + [x], 0, []) == Undefined
  {
    hide Decode, Line, ChunkSize, TakeChunk, Fs, SizeLine, NoCRLF;
    var line := Fs(16);
    LongestSize();
    assert line + [] == line;
    OneByteIsEnough(x);
    SizeRoundTrip(line, [], TWO_64 - 1);
    LineRoundTrip(line, [x]);
    DecodeStep(line + CRLF + [x], 0, [], line, [x], TWO_64 - 1);
  }

  // ---------------------------------------------------------------- the whole response

  const BLANK_LINE: seq<byte> := [CR, LF, CR, LF]

  /** How the header block says the body is delimited; `BadLength` is an unusable Content-Length. */
  datatype Mode = Chunked | Length(want: nat) | BadLength | UntilClose

  /** What `fetchBytes` returns, as a function of the whole response: nothing, or the body. */
  datatype Fetched = NoResult | Bytes(body: seq<byte>) | Crash

  function Fetch(s: seq<byte>, mode: seq<byte> -> Mode): Fetched {
    match Index(s, BLANK_LINE, 0)
    case None => NoResult
    case Some(sep) =>
      var rest := s[sep + 4..];
      match mode(s[..sep])
      case Chunked =>
        (match Decode(rest, 0, [])
         case Done(body, _) => Bytes(body)
         case Failed => NoResult
         case Undefined => Crash)
      case Length(want) => if |rest| < want then NoResult else Bytes(rest[..want])
      case BadLength => NoResult
      case UntilClose => Bytes(rest)
  }

  /** A header block as a response carries it: the first blank line is the one behind it. */
  predicate IsHead(head: seq<byte>) {
    Index(head + [13, 10, 13, 10], [13, 10, 13, 10], 0) == Some(|head|)
  }

  lemma HeadFound(head: seq<byte>, after: seq<byte>)
    requires IsHead(head)
    ensures var s := head + [13, 10, 13, 10] + after;
            Index(s, BLANK_LINE, 0) == Some(|head|) && s[..|head|] == head && s[|head| + 4..] == after
  {
    hide Index;
    IndexStable(head + [13, 10, 13, 10], after, BLANK_LINE, 0);
  }

  /** A body with a length: exactly the announced bytes behind the blank line, or nothing when there are too
      few. */
  lemma FetchLength(head: seq<byte>, body: seq<byte>, rest: seq<byte>, mode: seq<byte> -> Mode)
    requires IsHead(head)
    ensures mode(head) == Length(|body|) ==>
              Fetch(head + [13, 10, 13, 10] + (body + rest), mode) == Bytes(body)
    ensures mode(head).Length? && mode(head).want > |body| ==>
              Fetch(head + [13, 10, 13, 10] + body, mode) == NoResult
  {
    hide Index, Decode;
    HeadFound(head, body + rest);
    HeadFound(head, body);
    assert (body + rest)[..|body|] == body;
  }

  /** A body up to the end of the stream. */
  lemma FetchUntilClose(head: seq<byte>, body: seq<byte>, mode: seq<byte> -> Mode)
    requires IsHead(head) && mode(head) == UntilClose
    ensures Fetch(head + [13, 10, 13, 10] + body, mode) == Bytes(body)
  {
    hide Index, Decode;
    HeadFound(head, body);
  }

  /** A chunked body, printed in any way. */
  lemma FetchChunked(head: seq<byte>, chunks: seq<SentChunk>, zeros: seq<byte>, extension: seq<byte>,
                     trailers: seq<seq<byte>>, rest: seq<byte>, mode: seq<byte> -> Mode)
    requires IsHead(head) && mode(head) == Chunked
    requires forall i :: 0 <= i < |chunks| ==> WellFormed(chunks[i])
    requires SizeLine(zeros, extension, 0)
    requires forall i :: 0 <= i < |trailers| ==> trailers[i] != [] && NoCRLF(trailers[i])
    requires |AllChunks(chunks)| < TWO_64
    ensures Fetch(head + [13, 10, 13, 10] + (AllChunks(chunks) + LastBytes(zeros, extension, trailers) + rest), mode)
            == Bytes(Body(chunks))
  {
    hide Index, Decode, AllChunks, LastBytes, Body, SizeLine, WellFormed, NoCRLF;
    HeadFound(head, AllChunks(chunks) + LastBytes(zeros, extension, trailers) + rest);
    ChunkedRoundTrip(chunks, zeros, extension, trailers, rest, 0);
  }

  /** Without a blank line there is no result. */
  lemma FetchNothing(s: seq<byte>, mode: seq<byte> -> Mode)
    requires forall k :: 0 <= k < |s| ==> !MatchAt(s, [13, 10, 13, 10], k)
    ensures Fetch(s, mode) == NoResult
  {
    NoMatch(s, [13, 10, 13, 10], 0);
    hide Index, Decode;
  }

  lemma {:induction false} NoMatch(s: seq<byte>, pattern: seq<byte>, i: nat)
    requires pattern != [] && i <= |s| && forall k :: i <= k < |s| ==> !MatchAt(s, pattern, k)
    ensures Index(s, pattern, i) == None
    decreases |s| - i
  {
    if i < |s| {
      NoMatch(s, pattern, i + 1);
    }
  }

  /** Reads until `want` bytes are there, or fails at the end of the stream. */
  method ReadLength(conn: Connection, start: seq<byte>, want: nat) returns (ok: bool, body: seq<byte>)
    modifies conn`incoming
    ensures var s := start + old(conn.incoming);
            ok == (want <= |s|) && (ok ==> body == s[..want])
  {
    body := start;
    while |body| < want
      invariant body + conn.incoming == start + old(conn.incoming)
      invariant |body| <= want || body == start
      decreases |conn.incoming|
    {
      var piece := conn.Read(Min(4096, want - |body|));
      if piece == [] {
        assert body == start + old(conn.incoming);
        return false, body;
      }
      body := body + piece;
    }
    ok := true;
    if |body| > want {
      body := body[..want];
    }
  }

  method ReadToEnd(conn: Connection, start: seq<byte>) returns (body: seq<byte>)
    modifies conn`incoming
    ensures body == start + old(conn.incoming)
  {
    body := start;
    while true
      invariant body + conn.incoming == start + old(conn.incoming)
      decreases |conn.incoming|
    {
      var piece := conn.Read(4096);
      if piece == [] {
        return;
      }
      body := body + piece;
    }
  }

  /** Reads until the blank line after the header block is there. */
  method ReadHeader(conn: Connection) returns (found: bool, sep: nat, accum: seq<byte>)
    modifies conn`incoming
    ensures found == Index(old(conn.incoming), BLANK_LINE, 0).Some?
    ensures found ==> sep + 4 <= |accum| && Index(old(conn.incoming), BLANK_LINE, 0) == Some(sep)
    ensures found ==> accum + conn.incoming == old(conn.incoming)
  {
    accum, sep, found := [], 0, false;
    while true
      invariant accum + conn.incoming == old(conn.incoming)
      decreases |conn.incoming|
    {
      sep := Search(accum, 0, BLANK_LINE);
      if sep != |accum| {
        IndexStable(accum, conn.incoming, BLANK_LINE, 0);
        return true, sep, accum;
      }
      ghost var before := accum + conn.incoming;
      var piece := conn.Read(4096);
      if piece == [] {
        assert accum == old(conn.incoming);
        return;
      }
      accum := accum + piece;
      assert accum + conn.incoming == before;
    }
  }

  /** `fetchBytes` behind the request: the result depends on the response alone, not on how it arrives. */
  method FetchBytes(conn: Connection, mode: seq<byte> -> Mode) returns (result: Fetched)
    modifies conn`incoming
    ensures result == Fetch(old(conn.incoming), mode)
  {
    hide Index, Decode, MatchAt;
    ghost var s := conn.incoming;
    var found, sep, accum := ReadHeader(conn);
    if !found {
      return NoResult;
    }
    var body := accum[sep + 4..];
    assert accum[..sep] == s[..sep];
    assert body + conn.incoming == s[sep + 4..];
    match mode(accum[..sep])
    case Chunked =>
      assert Unread(conn, body, 0) == s[sep + 4..];
      var ok, defined, stash, off, out := DecodeChunked(conn, body, 0);
      result := if !defined then Crash else if ok then Bytes(out) else NoResult;
    case Length(want) =>
      var ok, bytes := ReadLength(conn, body, want);
      result := if ok then Bytes(bytes) else NoResult;
    case BadLength => result := NoResult;
    case UntilClose =>
      var bytes := ReadToEnd(conn, body);
      result := Bytes(bytes);
  }
}
