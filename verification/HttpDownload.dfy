/** The firmware's HTTP download: one response reassembled through a 2048-byte buffer however the
    network cuts it up, and the file fetched range by range. */
module HttpDownload {
  import opened Text
  import opened Http

  const BUF: nat := 2048
  const RANGE: nat := 2048
  const RECEIVE_ERROR := -6
  const CONNECT_ERROR := -4

  /** The file holds the first m bytes of the body, from start on, and is otherwise as it was. */
  ghost predicate StoredTo(was: map<int, char>, now: map<int, char>, start: int, body: string, m: int) {
    0 <= m <= |body| && now == Written(was, start, body[..m])
  }

  ghost predicate PrefixStored(was: map<int, char>, now: map<int, char>, start: int, body: string) {
    exists m :: StoredTo(was, now, start, body, m)
  }

  ghost predicate AllStored(was: map<int, char>, now: map<int, char>, start: int, body: string) {
    StoredTo(was, now, start, body, |body|)
  }

  lemma AllStoredIsWritten(was: map<int, char>, now: map<int, char>, start: int, body: string)
    ensures AllStored(was, now, start, body) <==> now == Written(was, start, body)
  {
    assert body[..|body|] == body;
  }

  lemma WholeStored(was: map<int, char>, now: map<int, char>, start: int, body: string)
    requires StoredTo(was, now, start, body, |body|)
    ensures AllStored(was, now, start, body)
  {
  }

  /** Of an empty body nothing is stored. */
  lemma EmptyStored(was: map<int, char>, now: map<int, char>, start: int, body: string)
    requires PrefixStored(was, now, start, body) && body == ""
    ensures now == was
  {
    WrittenNothing(was, start);
  }

  lemma IsPrefix(was: map<int, char>, now: map<int, char>, start: int, body: string, m: int)
    requires StoredTo(was, now, start, body, m)
    ensures PrefixStored(was, now, start, body)
  {
  }

  lemma NothingStored(was: map<int, char>, start: int, body: string)
    ensures StoredTo(was, was, start, body, 0) && PrefixStored(was, was, start, body)
  {
    WrittenNothing(was, start);
    assert StoredTo(was, was, start, body, 0);
  }

  /** The body ends within what a C int can address. */
  predicate Fits(start: int, n: int) { start + n < 0x8000_0000 }

  predicate Redirects(r: Response) { exists i :: 0 <= i < |r.fields| && IsLocation(r.fields[i]) }

  predicate Accepted(r: Response) { r.code == 200 || r.code == 206 || r.code == 301 }

  /** A coding field in lower case without tabs around its value, the only kind the firmware recognises. */
  predicate Tight(f: Field) { IsCoding(f) && f.value == "chunked" && Spaces(f.before) && Spaces(f.after) }

  /** What atoi makes of a field's value. */
  function Announced(f: Field): int { Atoi(Trim(f.before + f.value + f.after)) }

  /** Header fields that can be read: a length, whatever its value, fits a C int. */
  predicate HeadersOk(fields: seq<Field>) {
    forall i :: 0 <= i < |fields| ==>
      FieldOk(fields[i]) && (IsLength(fields[i]) ==> -0x8000_0000 <= Announced(fields[i]) < 0x8000_0000)
  }

  predicate Frames(f: Field) { IsLength(f) || Tight(f) }

  /** Of the first k header fields the j-th is the last that counts. */
  predicate LastOne(fields: seq<Field>, k: nat, j: int) {
    0 <= j < k <= |fields| && Frames(fields[j]) && forall i :: j < i < k ==> !Frames(fields[i])
  }

  /** What the first k header fields have told the reader: of the lengths and the codings it recognises, the
      last one wins. */
  ghost predicate Understood(fields: seq<Field>, k: nat, flag: int, total: int)
    requires k <= |fields|
  {
    if flag == 1 then exists j :: LastOne(fields, k, j) && IsLength(fields[j]) && total == Announced(fields[j])
    else if flag == 2 then exists j :: LastOne(fields, k, j) && Tight(fields[j])
    else flag == 0 && forall i :: 0 <= i < k ==> !Frames(fields[i])
  }

  function HeaderLine(fields: seq<Field>, k: nat): string
    requires k <= |fields|
  {
    if k == |fields| then "" else FieldLine(fields[k])
  }

  predicate ShortHeaders(r: Response) {
    forall k :: 0 <= k <= |r.fields| ==> |HeaderLine(r.fields, k)| <= 2045
  }

  /** Every line of the response fits the buffer. */
  predicate ShortLines(r: Response) {
    |StatusLine(r)| <= 2045 && ShortHeaders(r) && (r.payload.Chunked? ==> ShortSizes(r.payload))
  }

  /** The framing is one that the firmware recognises. */
  ghost predicate Recognised(r: Response) {
    r.payload.Sized? || (r.payload.Chunked? && exists i :: 0 <= i < |r.fields| && Tight(r.fields[i]))
  }

  function Pieces(p: Payload): nat { if p.Chunked? then 2 else 1 }

  lemma FieldLineParts(f: Field)
    requires FieldOk(f)
    ensures IndexOf(FieldLine(f), ':') == |f.name| < |FieldLine(f)|
    ensures FieldLine(f)[..|f.name|] == f.name && FieldLine(f)[|f.name| + 1..] == f.before + f.value + f.after
    ensures Plain(FieldLine(f)) && Trim(f.name) == f.name
  {
    var value := f.before + f.value + f.after;
    assert FieldLine(f) == f.name + [':'] + value;
    IndexOfFirst(f.name, ':', value);
    NameIsTrimmed(f.name);
    assert forall i :: 0 <= i < |f.before| ==> f.before[i] != '\r' && f.before[i] != '\n' && f.before[i] != '\0';
    assert Plain(f.before) && Plain(f.after);
    assert Plain(value);
  }

  lemma StatusLineParts(r: Response)
    requires WellFormed(r)
    ensures Plain(StatusLine(r)) && IndexOf(StatusLine(r), ' ') == |r.version| && |r.version| + 4 <= |StatusLine(r)|
    ensures Atoi(StatusLine(r)[|r.version| + 1..|r.version| + 4]) == r.code
  {
    var line, code := StatusLine(r), Decimal(r.code);
    ThreeDigits(r.code);
    assert line == r.version + [' '] + (code + r.reason);
    IndexOfFirst(r.version, ' ', code + r.reason);
    assert line[|r.version| + 1..|r.version| + 4] == code;
    assert Plain(code) by { assert forall i :: 0 <= i < |code| ==> IsDigit(code[i]); }
  }

  /** One read that brought something: which call it was, where on the wire it began, how many bytes it got. */
  datatype Read = Read(call: nat, from: nat, count: nat)

  /** The reads so far are the calls' and cover the wire up to pos without a gap. */
  ghost predicate Logged(fragments: nat -> int, log: seq<Read>, pos: nat) {
    if log == [] then pos == 0
    else
      var last := log[|log| - 1];
      && 0 < last.count <= fragments(last.call) && last.from + last.count == pos
      && Logged(fragments, log[..|log| - 1], last.from)
  }

  /** The new reads began at positions from lo on and before hi. */
  ghost predicate ReadsIn(was: seq<Read>, now: seq<Read>, lo: int, hi: int) {
    && |was| <= |now| && now[..|was|] == was
    && forall i :: |was| <= i < |now| ==> lo <= now[i].from < hi
  }

  /** A new read began at c and got a single byte. */
  ghost predicate LoneAt(was: seq<Read>, now: seq<Read>, c: int) {
    exists i :: |was| <= i < |now| && now[i].from == c && now[i].count == 1
  }

  lemma NoReads(log: seq<Read>, lo: int, hi: int)
    ensures ReadsIn(log, log, lo, hi)
  {
  }

  lemma ReadsInAgain(a: seq<Read>, b: seq<Read>, c: seq<Read>, lo: int, hi: int)
    requires ReadsIn(a, b, lo, hi) && ReadsIn(b, c, lo, hi)
    ensures ReadsIn(a, c, lo, hi)
  {
    assert c[..|a|] == b[..|a|];
    forall i | |a| <= i < |c| ensures lo <= c[i].from < hi {
      if i < |b| { assert c[i] == c[..|b|][i]; }
    }
  }

  lemma ReadsInTwice(a: seq<Read>, b: seq<Read>, c: seq<Read>, lo: int, mid: int, hi: int)
    requires ReadsIn(a, b, lo, mid) && ReadsIn(b, c, mid, hi) && lo <= mid <= hi
    ensures ReadsIn(a, c, lo, hi)
  {
    ReadsInAgain(a, b, c, lo, hi);
  }

  lemma ReadsWiden(a: seq<Read>, b: seq<Read>, lo: int, mid: int, hi: int)
    requires ReadsIn(a, b, lo, mid) && mid <= hi
    ensures ReadsIn(a, b, lo, hi)
  {
  }

  /** Reads that began before c do not count. */
  lemma LoneLater(a: seq<Read>, b: seq<Read>, d: seq<Read>, lo: int, mid: int, c: int, hi: int)
    requires ReadsIn(a, b, lo, mid) && mid <= c && ReadsIn(b, d, mid, hi)
    ensures LoneAt(a, d, c) <==> LoneAt(b, d, c)
  {
    forall i | |a| <= i < |b| ensures d[i].from != c { assert d[i] == d[..|b|][i]; }
  }

  lemma SameReads(was: seq<Read>, now: seq<Read>, lo: int, hi: int, c: int)
    requires ReadsIn(was, now, lo, hi) && (c < lo || hi <= c)
    ensures LoneAt([], now, c) <==> LoneAt([], was, c)
  {
    assert forall i :: 0 <= i < |was| ==> now[i] == now[..|was|][i];
  }

  lemma ReadsFollow(was: seq<Read>, now: seq<Read>, mid: int, hi: int)
    requires ReadsIn([], was, 0, mid) && ReadsIn(was, now, mid, hi) && 0 <= mid <= hi
    ensures ReadsIn([], now, 0, hi)
  {
    ReadsInTwice([], was, now, 0, mid, hi);
  }

  function Least(a: int, b: int, c: int): int {
    var d := if a < b then a else b;
    if d < c then d else c
  }

  // ----- how a response is taken apart ----------------------------------------------------

  function HeadersFrom(r: Response, k: nat): string
    requires k <= |r.fields|
  {
    HeaderWire(r.fields[k..], PayloadWire(r.payload))
  }

  /** What stands on the wire behind that line. */
  function HeaderRest(r: Response, k: nat): string
    requires k <= |r.fields|
  {
    if k == |r.fields| then PayloadWire(r.payload) else HeadersFrom(r, k + 1)
  }

  /** The code in a status line, 0 when it is accepted and otherwise its negative. */
  method CheckStatus(text: string, ghost r: Response) returns (n: int)
    requires WellFormed(r) && text == StatusLine(r)
    ensures n == if Accepted(r) then 0 else 0 - r.code
  {
    StatusLineParts(r);
    var space := IndexOf(text, ' ');
    if space == |text| { return RECEIVE_ERROR; }
    var code := Atoi(text[space + 1..space + 4]);
    n := if code != 200 && code != 301 && code != 206 then -code else 0;
  }

  predicate ChunksOk(w: Payload) {
    w.Chunked? && (forall i :: 0 <= i < |w.chunks| ==> ChunkOk(w.chunks[i])) && SizeLineOk(w.last, w.lastExt, 0)
  }

  function ChunksFrom(w: Payload, k: nat): string
    requires w.Chunked? && k <= |w.chunks|
  {
    ChunkWire(w.chunks[k..], w.last + w.lastExt, w.rest)
  }

  function JoinedFrom(w: Payload, k: nat): string
    requires w.Chunked? && k <= |w.chunks|
  {
    Joined(w.chunks[k..])
  }

  function SizeLine(w: Payload, k: nat): string
    requires w.Chunked? && k <= |w.chunks|
  {
    if k == |w.chunks| then w.last + w.lastExt else w.chunks[k].size + w.chunks[k].ext
  }

  /** What stands on the wire behind that line. */
  function ChunkRest(w: Payload, k: nat): string
    requires w.Chunked? && k <= |w.chunks|
  {
    if k == |w.chunks| then w.rest else w.chunks[k].data + (CRLF + ChunksFrom(w, k + 1))
  }

  predicate ShortSizes(w: Payload)
    requires w.Chunked?
  {
    forall k :: 0 <= k <= |w.chunks| ==> |SizeLine(w, k)| <= 2045
  }

  /** Where the CRLF behind the k-th chunk begins on a wire of `total` bytes. */
  function ChunkEnd(w: Payload, k: nat, total: nat): int
    requires w.Chunked? && k < |w.chunks|
  {
    total - |ChunksFrom(w, k + 1)| - 2
  }

  /** Some read began exactly behind a chunk's data and got the CR alone. */
  ghost predicate LoneCr(log: seq<Read>, total: nat, w: Payload) {
    w.Chunked? && exists k :: 0 <= k < |w.chunks| && LoneAt([], log, ChunkEnd(w, k, total))
  }

  lemma OnlyChunks(w: Payload)
    ensures !w.Chunked? ==> forall log, total :: !LoneCr(log, total, w)
  {
  }

  lemma {:induction false} ChunksShrink(w: Payload, j: nat, k: nat)
    requires w.Chunked? && j <= k <= |w.chunks|
    ensures |ChunksFrom(w, j)| >= |ChunksFrom(w, k)| + if j < k then 4 else 0
    decreases k - j
  {
    if j < k {
      assert w.chunks[j..][1..] == w.chunks[j + 1..];
      ChunksShrink(w, j + 1, k);
    }
  }

  lemma NoneYet(log: seq<Read>, total: nat, w: Payload)
    requires w.Chunked? && ReadsIn([], log, 0, total - |ChunksFrom(w, 0)|)
    ensures !LoneCr(log, total, w)
  {
    forall k, i | 0 <= k < |w.chunks| && 0 <= i < |log| ensures log[i].from != ChunkEnd(w, k, total) {
      ChunksShrink(w, 0, k + 1);
    }
  }

  /** Among the reads that end with the k-th chunk, only those at its own CRLF matter. */
  lemma LoneCrAt(was: seq<Read>, now: seq<Read>, total: nat, w: Payload, k: nat)
    requires w.Chunked? && k <= |w.chunks| && |ChunksFrom(w, k)| <= total
             && ReadsIn([], was, 0, total - |ChunksFrom(w, k)|)
    requires ReadsIn(was, now, total - |ChunksFrom(w, k)|, total - |if k == |w.chunks| then w.rest
             else ChunksFrom(w, k + 1)|)
    ensures k < |w.chunks| ==> ReadsIn([], now, 0, total - |ChunksFrom(w, k + 1)|)
    ensures !LoneCr(was, total, w) ==>
            (LoneCr(now, total, w) <==> k < |w.chunks| && LoneAt(was, now, ChunkEnd(w, k, total)))
  {
    hide ChunksFrom;
    var lo, hi := total - |ChunksFrom(w, k)|, total - |if k == |w.chunks| then w.rest else ChunksFrom(w, k + 1)|;
    forall j | 0 <= j < |w.chunks| && j != k
      ensures LoneAt([], now, ChunkEnd(w, j, total)) <==> LoneAt([], was, ChunkEnd(w, j, total))
    {
      if j < k { ChunksShrink(w, j + 1, k); } else { ChunksShrink(w, k + 1, j + 1); }
      SameReads(was, now, lo, hi, ChunkEnd(w, j, total));
    }
    if k < |w.chunks| {
      ChunksShrink(w, k, k + 1);
      ReadsFollow(was, now, lo, hi);
      LoneLater([], was, now, 0, lo, hi - 2, hi);
    }
  }

  /** The first `offset` bytes of the body are the chunks before the k-th. */
  predicate Reached(w: Payload, k: nat, offset: int)
    requires w.Chunked? && k <= |w.chunks|
  {
    0 <= offset <= |Body(w)| && Body(w)[offset..] == JoinedFrom(w, k)
  }

  lemma AllChunks(w: Payload)
    requires w.Chunked?
    ensures Reached(w, 0, 0)
  {
    assert w.chunks[0..] == w.chunks;
  }

  lemma SizeFirst(w: Payload, k: nat)
    requires ChunksOk(w) && k <= |w.chunks|
    ensures ChunksFrom(w, k) == SizeLine(w, k) + (CRLF + ChunkRest(w, k))
    ensures Plain(SizeLine(w, k)) && (ShortSizes(w) ==> |SizeLine(w, k)| <= BUF - 3)
  {
    if k < |w.chunks| {
      assert ChunkOk(w.chunks[k]);
      ScanSize(w.chunks[k].size, w.chunks[k].ext, |w.chunks[k].data|);
      assert w.chunks[k..][1..] == w.chunks[k + 1..];
    } else {
      ScanSize(w.last, w.lastExt, 0);
    }
  }

  /** The size line tells how much of the body follows; 0 means that none does. */
  lemma SizeIsRead(w: Payload, k: nat, offset: nat)
    requires ChunksOk(w) && k <= |w.chunks| && Reached(w, k, offset)
    ensures k == |w.chunks| ==> ScanHex(SizeLine(w, k)) == 0 && offset == |Body(w)|
    ensures k < |w.chunks| ==>
              var n := ScanHex(SizeLine(w, k));
              && n > 0 && offset + n <= |Body(w)| && Reached(w, k + 1, offset + n)
              && ChunkRest(w, k) == Body(w)[offset..offset + n] + (CRLF + ChunksFrom(w, k + 1))
  {
    hide ScanHex, SizeLineOk, ChunksFrom, Plain;
    if k < |w.chunks| {
      assert ChunkOk(w.chunks[k]);
      ScanSize(w.chunks[k].size, w.chunks[k].ext, |w.chunks[k].data|);
      assert w.chunks[k..][1..] == w.chunks[k + 1..];
      After(Body(w), offset, w.chunks[k].data, JoinedFrom(w, k + 1));
    } else {
      ScanSize(w.last, w.lastExt, 0);
    }
  }

  lemma FramingDecides(r: Response, flag: int, total: int)
    requires WellFormed(r) && Understood(r.fields, |r.fields|, flag, total)
    ensures flag == 1 ==> r.payload.Sized? && total == |Body(r.payload)| && PayloadWire(r.payload) == Body(r.payload)
    ensures flag == 2 ==> r.payload.Chunked? && ChunksOk(r.payload)
                          && PayloadWire(r.payload) == ChunksFrom(r.payload, 0)
    ensures Recognised(r) <==> flag == 1 || flag == 2
  {
    if r.payload.Chunked? { assert r.payload.chunks[0..] == r.payload.chunks; }
    if flag == 1 {
      var j :| LastOne(r.fields, |r.fields|, j) && IsLength(r.fields[j]) && total == Announced(r.fields[j]);
      LengthIsRead(r.fields[j]);
    } else if flag == 0 {
      assert forall i :: 0 <= i < |r.fields| ==> !Frames(r.fields[i]);
    }
  }

  /** A response whose framing agrees with its payload has headers that can be read. */
  lemma HeadersAreOk(r: Response)
    requires WellFormed(r) && |Body(r.payload)| < 0x8000_0000
    ensures HeadersOk(r.fields)
  {
    hide SameName;
    forall i | 0 <= i < |r.fields| && IsLength(r.fields[i])
      ensures -0x8000_0000 <= Announced(r.fields[i]) < 0x8000_0000
    {
      LengthIsRead(r.fields[i]);
    }
  }

  lemma {:induction false} LongerHeaders(fields: seq<Field>, after: string)
    ensures |HeaderWire(fields, after)| >= |after|
  {
    if fields != [] { LongerHeaders(fields[1..], after); }
  }

  lemma FirstLine(r: Response)
    requires WellFormed(r)
    ensures Plain(StatusLine(r)) && Wire(r) == StatusLine(r) + (CRLF + HeadersFrom(r, 0)) && r.code >= 100
  {
    StatusLineParts(r);
    assert r.fields[0..] == r.fields;
  }

  /** One header line: its name and value, cut at the colon and trimmed. */
  method UseField(text: string, flag0: int, total0: int32, ghost r: Response, ghost k: nat)
    returns (flag: int, total: int32, relocate: bool, ret: int)
    requires HeadersOk(r.fields) && k < |r.fields| && text == FieldLine(r.fields[k])
    requires Understood(r.fields, k, flag0, total0)
    ensures ret == 0 && (relocate <==> IsLocation(r.fields[k]))
    ensures !relocate ==> Understood(r.fields, k + 1, flag, total)
  {
    flag, total, relocate, ret := flag0, total0, false, 0;
    FieldLineParts(r.fields[k]);
    var colon := IndexOf(text, ':');
    if colon == |text| { ret := RECEIVE_ERROR; return; }
    var name, val := Trim(text[..colon]), Trim(text[colon + 1..]);
    if SameName(name, "Location") {
      relocate := true;
      return;
    }
    FieldIsUnderstood(r.fields, k, flag, total);
    if SameName(name, "Content-Length") {
      flag, total := 1, Atoi(val);
    } else if SameName(name, "Transfer-Encoding") {
      if val == "chunked" { flag := 2; }
    }
  }

  lemma HeaderAt(r: Response, k: nat)
    requires k < |r.fields|
    ensures HeaderLine(r.fields, k) == FieldLine(r.fields[k])
    ensures IsLocation(r.fields[k]) ==> Redirects(r)
  {
  }

  lemma ShortHeader(r: Response, k: nat)
    requires k <= |r.fields|
    ensures ShortHeaders(r) ==> |HeaderLine(r.fields, k)| <= BUF - 3
  {
  }

  lemma UnderstoodFirst(r: Response)
    ensures Understood(r.fields, 0, 0, 0)
    ensures (forall i :: 0 <= i < |r.fields| ==> !IsLocation(r.fields[i])) ==> !Redirects(r)
  {
  }

  lemma HeaderFirst(r: Response, k: nat)
    requires k <= |r.fields| && HeadersOk(r.fields)
    ensures HeadersFrom(r, k) == HeaderLine(r.fields, k) + (CRLF + HeaderRest(r, k))
    ensures Plain(HeaderLine(r.fields, k)) && (k < |r.fields| <==> HeaderLine(r.fields, k) != "")
  {
    if k < |r.fields| {
      FieldLineParts(r.fields[k]);
      assert r.fields[k..][1..] == r.fields[k + 1..];
    }
  }

  /** One more field is understood as the code does it. */
  lemma FieldIsUnderstood(fields: seq<Field>, k: nat, flag: int, total: int)
    requires HeadersOk(fields) && k < |fields| && Understood(fields, k, flag, total)
    ensures var f := fields[k]; var val := Trim(f.before + f.value + f.after);
            && (IsLength(f) ==> Understood(fields, k + 1, 1, Atoi(val)))
            && (!IsLength(f) && IsCoding(f) ==>
               Understood(fields, k + 1, if val == "chunked" then 2 else flag, total))
            && (!IsLength(f) && !IsCoding(f) ==> Understood(fields, k + 1, flag, total))
  {
    hide HeadersOk, FieldOk, IsLength, IsCoding, Tight;
    var f := fields[k];
    CodingIsRead(fields, k);
    if Frames(f) {
      assert LastOne(fields, k + 1, k);
    } else if flag == 1 || flag == 2 {
      var j :| LastOne(fields, k, j) && (if flag == 1 then IsLength(fields[j]) && total == Announced(fields[j])
                                         else Tight(fields[j]));
      assert LastOne(fields, k + 1, j);
    }
  }

  lemma OneKind(f: Field)
    ensures !(IsCoding(f) && IsLength(f))
  {
    NamesApart("Transfer-Encoding", "Content-Length");
  }

  /** A coding is recognised in its lower-case, tab-free form alone. */
  lemma CodingIsRead(fields: seq<Field>, k: nat)
    requires HeadersOk(fields) && k < |fields|
    ensures var f := fields[k]; Tight(f) <==> IsCoding(f) && Trim(f.before + f.value + f.after) == "chunked"
    ensures Tight(fields[k]) ==> !IsLength(fields[k])
  {
    hide SameName;
    var f := fields[k];
    assert FieldOk(f);
    OneKind(f);
    if f.value == "" {
      TrimBlanks(f.before + f.value + f.after);
      assert !Blank("chunked"[0]);
    } else {
      var left, right := TrimPadded(f.before, f.value, f.after);
      var val := left + f.value + right;
      assert left != "" ==> val[0] == left[0];
      assert right != "" ==> val[|val| - 1] == right[|right| - 1];
      assert !Blank("chunked"[0]) && !Blank("chunked"[6]);
      assert left == "" && right == "" ==> val == f.value;
    }
  }

  // ----- the connection -------------------------------------------------------------------

  /** One connection: the bytes the server will have sent, what each read is given, the receive
      buffer, and the file that is being written. */
  class Connection {
    const wire: string
    const fragments: nat -> int
    const buf: array<char>
    var pos: nat
    var calls: nat
    var flash: map<int, char>
    ghost var log: seq<Read>

    constructor (wire: string, fragments: nat -> int, flash: map<int, char>)
      ensures Valid() && pos == 0 && log == [] && this.wire == wire && this.fragments == fragments
              && this.flash == flash && fresh(buf) && buf.Length == 2048
    {
      this.wire, this.fragments, this.flash := wire, fragments, flash;
      pos, calls, buf, log := 0, 0, new char[BUF], [];
    }

    ghost predicate Valid() reads this`pos, this`log {
      buf.Length == BUF && pos <= |wire| && Logged(fragments, log, pos)
    }

    /** The network never times out and never hands over fewer than `least` bytes while it has them. */
    ghost predicate Reliable(least: int) { forall i :: fragments(i) >= least }

    lemma Untouched()
      requires Valid() && pos == 0 && buf[0] == '\0'
      ensures Next(0, 0, wire)
    {
      assert wire[0..] == wire;
    }

    lemma TwoIsOne()
      ensures Reliable(2) ==> Reliable(1)
    {
    }

    lemma ReliableEnough(p: Payload)
      ensures Reliable(Pieces(p)) ==> Reliable(1) && (p.Chunked? ==> Reliable(2))
    {
    }

    /** The buffer holds the last `length` bytes received, from p on, and a NUL behind them. */
    ghost predicate Held(p: nat, length: nat)
      requires Valid()
      reads this`pos, this`log, buf
    {
      && p + length < BUF && length <= pos && buf[p + length] == '\0'
      && forall j :: p <= j < p + length ==> buf[j] == wire[pos - length + j - p]
    }

    predicate CrlfAt(k: nat)
      requires k + 1 < buf.Length
      reads buf
    {
      buf[k] == '\r' && buf[k + 1] == '\n'
    }

    /** dev_recv: at most max bytes, any number of them; nothing or an error when ret <= 0. */
    method Recv(at: nat, max: nat) returns (ret: int)
      requires Valid() && at + max <= BUF
      modifies this`pos, this`calls, this`log, buf
      ensures Valid() && ret <= max && pos == old(pos) + if ret > 0 then ret else 0
      ensures forall k :: 0 <= k < BUF ==> buf[k] == if at <= k < at + ret then wire[old(pos) + k - at] else old(buf[k])
      ensures Reliable(1) && ret <= 0 ==> max == 0 || old(pos) == |wire|
      ensures Reliable(2) && ret < 2 ==> ret == max || pos == |wire|
      ensures ret < 0 ==> ret == RECEIVE_ERROR
      ensures log == old(log) + if ret > 0 then [Read(old(calls), old(pos), ret)] else []
      ensures ret > 0 ==> ret == Least(fragments(old(calls)), max, |wire| - old(pos))
    {
      var got := fragments(calls);
      ghost var call := calls;
      calls := calls + 1;
      if got <= 0 { return if got < 0 then RECEIVE_ERROR else 0; }
      ret := if got < max then got else max;
      if ret > |wire| - pos { ret := |wire| - pos; }
      forall k | 0 <= k < ret { buf[at + k] := wire[pos + k]; }
      if ret > 0 {
        log := log + [Read(call, pos, ret)];
        assert log[..|log| - 1] == old(log);
      }
      pos := pos + ret;
    }

    /** dev_savefile: the result of the write itself is ignored. */
    method Save(p: nat, length: nat, at: int32)
      requires Valid() && p + length <= BUF
      modifies this`flash
      ensures flash == Written(old(flash), at, buf[p..p + length])
    {
      flash := Written(flash, at, buf[p..p + length]);
    }

    /** strstr(buf + p, "\r\n"), or -1. */
    method Strstr(p: nat, ghost length: nat) returns (i: int, ghost end: nat)
      requires Valid() && p + length < BUF && buf[p + length] == '\0'
      ensures p <= end <= p + length && (forall k :: p <= k < end ==> buf[k] != '\0' && !CrlfAt(k))
      ensures i == -1 || (p <= i == end < p + length - 1 && CrlfAt(i))
      ensures i == -1 ==> buf[end] == '\0'
    {
      i := p;
      end := p;
      while buf[i] != '\0'
        invariant p <= i <= p + length && end == i
        invariant forall k :: p <= k < i ==> buf[k] != '\0' && !CrlfAt(k)
        decreases p + length - i
      {
        if buf[i] == '\r' && buf[i + 1] == '\n' { return; }
        i := i + 1;
        end := i;
      }
      i := -1;
    }

    /** Moves the unread bytes to the front of the buffer. */
    method Shift(p: nat, length: nat)
      requires Valid() && p + length < BUF
      modifies buf
      ensures forall j :: 0 <= j < length ==> buf[j] == old(buf[p + j])
    {
      for i := 0 to length
        invariant forall j :: 0 <= j < i ==> buf[j] == old(buf[p + j])
        invariant forall j :: i <= j < BUF ==> buf[j] == old(buf[j])
      {
        buf[i] := buf[p + i];
      }
    }

    /** Shifts, and receives behind what is already there. */
    method Refill(p0: nat, length0: nat) returns (p: nat, length: nat, ret: int)
      requires Valid() && Held(p0, length0)
      modifies this`pos, this`calls, this`log, buf
      ensures Valid() && p == 0 && length == length0 + (if ret > 0 then ret else 0)
      ensures ret > 0 ==> Held(p, length) && pos == old(pos) + ret
      ensures Reliable(1) && ret <= 0 ==> length0 == BUF - 1 || old(pos) == |wire|
      ensures Reliable(2) && ret < 2 ==> length == BUF - 1 || pos == |wire|
      ensures ret < 0 ==> ret == RECEIVE_ERROR
      ensures log == old(log) + if ret > 0 then [Read(old(calls), old(pos), ret)] else []
      ensures ret > 0 ==> ret == Least(fragments(old(calls)), BUF - 1 - length0, |wire| - old(pos))
    {
      Shift(p0, length0);
      p, length := 0, length0;
      ret := Recv(length, BUF - 1 - length);
      if ret <= 0 { return; }
      length := length + ret;
      buf[length] := '\0';
    }

    /** Receives at the front of the buffer, when nothing in it is needed any more. */
    method Reload(max: nat) returns (ret: int)
      requires Valid() && 0 < max < BUF
      modifies this`pos, this`calls, this`log, buf
      ensures Valid() && ret <= max
      ensures ret > 0 ==> Held(0, ret) && pos == old(pos) + ret
      ensures Reliable(1) && ret <= 0 ==> old(pos) == |wire|
      ensures log == old(log) + if ret > 0 then [Read(old(calls), old(pos), ret)] else []
    {
      ret := Recv(0, max);
      if ret > 0 { buf[ret] := '\0'; }
    }

    /** A line found in the buffer is the line on the wire, and one not found is not all there yet. */
    lemma SearchFindsLine(p: nat, length: nat, line: string, i: int, end: nat)
      requires Valid() && Held(p, length) && LineAt(wire, pos - length, line) && Plain(line)
      requires p <= end <= p + length && (forall k :: p <= k < end ==> buf[k] != '\0' && !CrlfAt(k))
      requires i == -1 || (p <= i == end < p + length - 1 && CrlfAt(i))
      requires i == -1 ==> buf[end] == '\0'
      ensures if i == -1 then length < |line| + 2 else i == p + |line| && buf[p..i] == line
    {
      var c := pos - length;
      forall j | p <= j < p + |line| && j < p + length
        ensures buf[j] == line[j - p] && buf[j] != '\0' && buf[j] != '\r'
      {
        assert wire[c + (j - p)] == line[j - p];
      }
      if length >= |line| + 2 {
        assert buf[p + |line|] == wire[c + |line|] && buf[p + |line| + 1] == wire[c + |line| + 1];
        assert CrlfAt(p + |line|);
        assert end == p + |line|;
      }
    }

    /** Looks for the end of the line at p, shifting and receiving until it is there. */
    method NextLine(p0: nat, length0: nat, ghost line: string) returns (p: nat, length: nat, eol: nat, ret: int)
      requires Valid() && Held(p0, length0) && LineAt(wire, pos - length0, line) && Plain(line)
      modifies this`pos, this`calls, this`log, buf
      ensures Valid()
      ensures ret > 0 ==> Held(p, length) && pos - length == old(pos) - length0 && eol == p + |line|
                          && |line| + 2 <= length
                          && buf[p..eol] == line
      ensures Reliable(1) && |line| <= BUF - 3 ==> ret > 0
      ensures p0 == 0 ==> p == 0
      ensures ret < 0 ==> ret == RECEIVE_ERROR
      ensures ReadsIn(old(log), log, old(pos) - length0, old(pos) - length0 + |line| + 2)
    {
      p, length, eol, ret := p0, length0, 0, 1;
      while true
        invariant Valid() && Held(p, length) && pos - length == old(pos) - length0 && ret > 0 && (p0 == 0 ==> p == 0)
        invariant ReadsIn(old(log), log, old(pos) - length0, old(pos) - length0 + |line| + 2)
        decreases |wire| - pos
      {
        ghost var end;
        var i: int;
        i, end := Strstr(p, length);
        SearchFindsLine(p, length, line, i, end);
        if i >= 0 { eol := i; return; }
        p, length, ret := Refill(p, length);
        if ret <= 0 { return; }
      }
    }

    /** The unread bytes are the front of `rest`, and the wire brings the others. */
    ghost predicate Next(p: nat, length: nat, rest: string)
      requires Valid()
      reads this`pos, this`log, buf
    {
      Held(p, length) && wire[pos - length..] == rest
    }

    /** Where on the wire its last part `rest` begins. */
    ghost function Mark(rest: string): int { |wire| - |rest| }

    /** Ends the line with a NUL; an empty line is left alone. */
    method CutLine(p: nat, length: nat, eol: nat)
      requires Valid() && Held(p, length) && p <= eol && eol + 2 <= p + length
      modifies buf
      ensures Held(eol + 2, p + length - eol - 2)
    {
      if eol > p { buf[eol] := '\0'; }
    }

    lemma HeldBounds(p: nat, length: nat)
      requires Valid() && Held(p, length)
      ensures p + length < BUF && length <= pos
    {
    }

    /** Takes the line at p off the buffer. */
    method TakeLine(p0: nat, length0: nat, ghost line: string, ghost rest: string)
        returns (text: string, p: nat, length: nat, ret: int)
      requires Valid() && Plain(line) && Next(p0, length0, line + (CRLF + rest))
      modifies this`pos, this`calls, this`log, buf
      ensures Valid()
      ensures ret > 0 ==> text == line && Next(p, length, rest)
      ensures Reliable(1) && |line| <= BUF - 3 ==> ret > 0
      ensures ret < 0 ==> ret == RECEIVE_ERROR
      ensures ReadsIn(old(log), log, Mark(line + (CRLF + rest)), Mark(rest))
    {
      hide LineAt, Reliable, Held, Plain, ReadsIn;
      HeldBounds(p0, length0);
      LineFirst(wire, pos - length0, line, rest);
      var eol: nat;
      text := "";
      p, length, eol, ret := NextLine(p0, length0, line);
      if ret <= 0 { return; }
      HeldBounds(p, length);
      text := buf[p..eol];
      CutLine(p, length, eol);
      p, length := eol + 2, length - (eol + 2 - p);
    }

    /** Takes the k-th header line, or the empty line behind the last. */
    method TakeHeader(p0: nat, length0: nat, ghost r: Response, ghost k: nat)
      returns (text: string, p: nat, length: nat, ret: int)
      requires Valid() && HeadersOk(r.fields) && k <= |r.fields| && Next(p0, length0, HeadersFrom(r, k))
      modifies this`pos, this`calls, this`log, buf
      ensures Valid() && (ret < 0 ==> ret == RECEIVE_ERROR)
      ensures ret > 0 ==> text == HeaderLine(r.fields, k) && (k < |r.fields| <==> text != "")
      ensures ret > 0 ==> Next(p, length, HeaderRest(r, k))
      ensures Mark(HeadersFrom(r, k)) <= Mark(HeaderRest(r, k))
      ensures Reliable(1) && |HeaderLine(r.fields, k)| <= BUF - 3 ==> ret > 0
      ensures ReadsIn(old(log), log, Mark(HeadersFrom(r, k)), Mark(HeaderRest(r, k)))
    {
      hide Next, HeadersFrom, HeaderLine, HeaderRest, PayloadWire, HeadersOk, Plain, ReadsIn;
      HeaderFirst(r, k);
      text, p, length, ret := TakeLine(p0, length0, HeaderLine(r.fields, k), HeaderRest(r, k));
    }

    /** Reads header fields up to the empty line. */
    method ReadHeaders(p0: nat, length0: nat, ghost r: Response)
      returns (p: nat, length: nat, flag: int, total: int32, relocate: bool, ret: int)
      requires Valid() && HeadersOk(r.fields) && Next(p0, length0, HeadersFrom(r, 0))
      modifies this`pos, this`calls, this`log, buf
      ensures Valid() && (ret == 0 || ret == RECEIVE_ERROR)
      ensures relocate ==> ret == 0 && Redirects(r)
      ensures ret == 0 && !relocate ==> !Redirects(r) && Next(p, length, PayloadWire(r.payload))
                                        && Understood(r.fields, |r.fields|, flag, total)
      ensures Reliable(1) && ShortHeaders(r) ==> ret == 0
      ensures ret == 0 && !relocate ==> ReadsIn(old(log), log, Mark(HeadersFrom(r, 0)), Mark(PayloadWire(r.payload)))
    {
      hide Understood, HeadersFrom, HeadersOk, PayloadWire, Next, Reliable, ShortHeaders, HeaderLine,
           Redirects, ReadsIn, Mark;
      p, length, flag, total, relocate, ret := p0, length0, 0, 0, false, 0;
      UnderstoodFirst(r);
      ghost var k, first := 0, Mark(HeadersFrom(r, 0));
      NoReads(log, first, first);
      while true
        invariant 0 <= k <= |r.fields| && Valid() && Next(p, length, HeadersFrom(r, k)) && ret == 0 && !relocate
        invariant forall i :: 0 <= i < k ==> !IsLocation(r.fields[i])
        invariant Understood(r.fields, k, flag, total)
        invariant ReadsIn(old(log), log, first, Mark(HeadersFrom(r, k))) && first <= Mark(HeadersFrom(r, k))
        decreases |r.fields| - k
      {
        var text: string;
        ShortHeader(r, k);
        ghost var before := log;
        text, p, length, ret := TakeHeader(p, length, r, k);
        ReadsInTwice(old(log), before, log, first, Mark(HeadersFrom(r, k)), Mark(HeaderRest(r, k)));
        if ret <= 0 { ret := RECEIVE_ERROR; return; }
        ret := 0;
        if text == "" { return; }
        HeaderAt(r, k);
        flag, total, relocate, ret := UseField(text, flag, total, r, k);
        if relocate || ret < 0 { return; }
        k := k + 1;
      }
    }

    /** The body's bytes from..to are the wire's, `shift` further on. */
    ghost predicate OnWire(shift: int, body: string, from: nat, to: nat) {
      && to <= |body| && 0 <= shift + from && shift + to <= |wire|
      && forall k :: from <= k < to ==> wire[shift + k] == body[k]
    }

    lemma PartOfBody(p: nat, length: nat, offset: nat, body: string, shift: int, from: nat, to: nat)
      requires Valid() && p + length <= BUF && from <= offset <= offset + length <= to && OnWire(shift, body, from, to)
      requires forall j :: p <= j < p + length ==> buf[j] == wire[shift + offset + j - p]
      ensures buf[p..p + length] == body[offset..offset + length]
    {
      forall j | p <= j < p + length ensures buf[j] == body[offset + j - p] { }
    }

    /** dev_savefile of body bytes that are still unsaved. */
    method SavePart(start: nat, p: nat, length: nat, offset: int, ghost body: string, ghost was: map<int, char>,
                    ghost shift: int, ghost from: nat, ghost to: nat)
      requires Valid() && p + length <= BUF && from <= offset <= offset + length <= to && OnWire(shift, body, from, to)
      requires Fits(start, |body|)
      requires forall j :: p <= j < p + length ==> buf[j] == wire[shift + offset + j - p]
      requires StoredTo(was, flash, start, body, offset)
      modifies this`flash
      ensures StoredTo(was, flash, start, body, offset + length)
    {
      hide Written;
      PartOfBody(p, length, offset, body, shift, from, to);
      WrittenFurther(was, start, body, offset, offset + length, buf[p..p + length]);
      Save(p, length, start + offset);
    }

    /** A body of known length: what is left in the buffer, then reads of up to the whole buffer. */
    method ReceiveSized(start: nat, p: nat, length0: nat, total: int, ghost body: string) returns (n: int)
      requires Valid() && Next(p, length0, body) && total == |body| && Fits(start, |body|)
      modifies this`pos, this`calls, this`log, this`flash, buf
      ensures Valid() && (n == RECEIVE_ERROR || n == |body|)
      ensures n == |body| ==> AllStored(old(flash), flash, start, body)
      ensures PrefixStored(old(flash), flash, start, body)
      ensures Reliable(1) ==> n == |body|
    {
      hide StoredTo, PrefixStored, AllStored, OnWire, Reliable, Fits, Written, Next, Held;
      ghost var c, was := pos - length0, flash;
      SizedOnWire(p, length0, body);
      NothingStored(was, start, body);
      if length0 > 0 { SaveHeld(start, p, length0, length0, 0, body, was, c, 0, |body|); }
      var offset: int := length0;
      while offset < total
        invariant Valid() && 0 <= offset <= |body| && pos == c + offset
        invariant StoredTo(was, flash, start, body, offset) && PrefixStored(was, flash, start, body)
        decreases |body| - offset
      {
        var length := total - offset;
        if length > BUF { length := BUF; }
        length := ReceiveAndSave(start, length, offset, body, was, c);
        if length <= 0 { n := RECEIVE_ERROR; return; }
        offset := offset + length;
      }
      WholeStored(was, flash, start, body);
      n := total;
    }

    /** One read of body bytes into the whole buffer, saved at once. */
    method ReceiveAndSave(start: nat, max: nat, offset: int, ghost body: string, ghost was: map<int, char>,
        ghost c: nat) returns (got: int)
      requires Valid() && 0 < max <= BUF && 0 <= offset && offset + max <= |body| && OnWire(c, body, 0, |body|)
               && Fits(start, |body|)
      requires pos == c + offset && |wire| == c + |body| && StoredTo(was, flash, start, body, offset)
               && PrefixStored(was, flash, start, body)
      modifies this`pos, this`calls, this`log, this`flash, buf
      ensures Valid() && got <= max && (got <= 0 ==> flash == old(flash)) && (Reliable(1) ==> got > 0)
      ensures got > 0 ==> pos == old(pos) + got && StoredTo(was, flash, start, body, offset + got)
      ensures PrefixStored(was, flash, start, body)
    {
      hide StoredTo, PrefixStored, AllStored, OnWire, Reliable, Fits, Written;
      got := Recv(0, max);
      if got <= 0 { return; }
      SavePart(start, 0, got, offset, body, was, c, 0, |body|);
      IsPrefix(was, flash, start, body, offset + got);
    }

    /** The rest of one chunk, whose first bytes may be in the buffer already, and its CRLF. */
    method ReceiveChunk(start: nat, p0: nat, length0: nat, total0: int, offset0: int, ghost body: string,
        ghost rest: string,
                        ghost was: map<int, char>)
      returns (p: nat, length: nat, offset: int, ret: int)
      requires Valid() && 0 <= offset0 <= offset0 + total0 <= |body| && total0 > 0 && Fits(start, |body|)
      requires Next(p0, length0, body[offset0..offset0 + total0] + (CRLF + rest))
      requires StoredTo(was, flash, start, body, offset0)
      modifies this`pos, this`calls, this`log, this`flash, buf
      ensures Valid() && (ret == 0 || ret == RECEIVE_ERROR)
      ensures ret == 0 ==> offset == offset0 + total0 && Next(p, length, rest)
                           && StoredTo(was, flash, start, body, offset)
      ensures PrefixStored(was, flash, start, body)
      ensures Reliable(2) ==> ret == 0
      ensures ReadsIn(old(log), log, Mark(rest) - 2 - total0, Mark(rest))
      ensures Reliable(1) ==> (ret == 0 <==> !LoneAt(old(log), log, Mark(rest) - 2))
    {
      hide StoredTo, PrefixStored, AllStored, OnWire, LineAt, Reliable, Fits, Written, ReadsIn, LoneAt, Next, Held;
      NextParts(p0, length0, body[offset0..offset0 + total0] + (CRLF + rest));
      ghost var shift, end := pos - length0 - offset0, offset0 + total0;
      ChunkOnWire(pos - length0, body, offset0, end, rest);
      assert shift + end == Mark(rest) - 2;
      TwoIsOne();
      p, length, offset, ret := p0, length0, offset0, RECEIVE_ERROR;
      var total: int;
      p, length, offset, total, ret := ReceiveChunkData(start, p, length, total0, offset, body, was, shift, end);
      ghost var before := log;
      if ret < 0 {
        ReadsWiden(old(log), log, Mark(rest) - 2 - total0, Mark(rest) - 2, Mark(rest));
        return;
      }
      SaveHeld(start, p, length, total, offset, body, was, shift, offset0, end);
      HeldFurther(p, length, total);
      offset, length, p := offset + total, length - total, p + total;
      p, length, ret := SkipCrlf(p, length, shift + end);
      if ret == 0 { NextOf(p, length, rest); }
      ReadsInTwice(old(log), before, log, Mark(rest) - 2 - total0, Mark(rest) - 2, Mark(rest));
      LoneLater(old(log), before, log, Mark(rest) - 2 - total0, Mark(rest) - 2, Mark(rest) - 2, Mark(rest));
    }

    lemma NextParts(p: nat, length: nat, rest: string)
      requires Valid() && Next(p, length, rest)
      ensures length <= pos && Held(p, length) && wire[pos - length..] == rest
    {
    }

    lemma NextOf(p: nat, length: nat, rest: string)
      requires Valid() && Held(p, length) && wire[pos - length..] == rest
      ensures Next(p, length, rest)
    {
    }

    lemma HeldFurther(p: nat, length: nat, k: nat)
      requires Valid() && Held(p, length) && k <= length
      ensures Held(p + k, length - k)
    {
    }

    /** SavePart of the first bytes that the buffer holds. */
    method SaveHeld(start: nat, p: nat, length: nat, part: nat, offset: int, ghost body: string,
                    ghost was: map<int, char>,
                    ghost shift: int, ghost from: nat, ghost to: nat)
      requires Valid() && Held(p, length) && part <= length && pos - length == shift + offset
      requires from <= offset <= offset + part <= to && OnWire(shift, body, from, to) && Fits(start, |body|)
      requires to <= |body| && StoredTo(was, flash, start, body, offset)
      modifies this`flash
      ensures StoredTo(was, flash, start, body, offset + part) && PrefixStored(was, flash, start, body)
    {
      hide StoredTo, AllStored, OnWire, PrefixStored, Fits;
      SavePart(start, p, part, offset, body, was, shift, from, to);
      IsPrefix(was, flash, start, body, offset + part);
    }

    /** In the middle of a chunk that ends at `end`: `total` bytes are missing, and the buffer holds the
        next bytes of the wire from `offset` on. */
    ghost predicate InChunk(p: nat, length: nat, offset: int, total: int, shift: int, from: nat, end: nat)
      requires Valid()
      reads this`pos, this`log, buf
    {
      Held(p, length) && total > 0 && from <= offset == end - total && pos - length == shift + offset
          && shift + end <= |wire|
    }

    /** Saves and receives until the buffer holds all that is missing of the chunk. */
    method ReceiveChunkData(start: nat, p0: nat, length0: nat, total0: int, offset0: int, ghost body: string,
                            ghost was: map<int, char>, ghost shift: int, ghost end: nat)
      returns (p: nat, length: nat, offset: int, total: int, ret: int)
      requires Valid() && 0 <= offset0 <= end <= |body| && InChunk(p0, length0, offset0, total0, shift, offset0, end)
      requires OnWire(shift, body, offset0, end) && Fits(start, |body|)
      requires StoredTo(was, flash, start, body, offset0)
      modifies this`pos, this`calls, this`log, this`flash, buf
      ensures Valid() && (ret == 0 || ret == RECEIVE_ERROR)
      ensures 0 <= offset <= end
      ensures ret == 0 ==> total <= length && InChunk(p, length, offset, total, shift, offset0, end)
      ensures StoredTo(was, flash, start, body, offset) && PrefixStored(was, flash, start, body)
      ensures Reliable(1) ==> ret == 0
      ensures ReadsIn(old(log), log, shift + offset0, shift + end)
    {
      hide StoredTo, AllStored, PrefixStored, OnWire, Held, Reliable, Fits, InChunk, Written, ReadsIn;
      p, length, offset, total, ret := p0, length0, offset0, total0, 0;
      IsPrefix(was, flash, start, body, offset);
      NoReads(log, shift + offset0, shift + end);
      while length < total
        invariant Valid() && InChunk(p, length, offset, total, shift, offset0, end) && ret == 0 && 0 <= offset <= end
        invariant ReadsIn(old(log), log, shift + offset0, shift + end)
        invariant StoredTo(was, flash, start, body, offset) && PrefixStored(was, flash, start, body)
        decreases |wire| - pos
      {
        var saved := length;
        ghost var before := log;
        length, ret := SaveAndReload(start, p, saved, offset, total, body, was, shift, offset0, end);
        p, offset, total := 0, offset + saved, total - saved;
        ReadsInAgain(old(log), before, log, shift + offset0, shift + end);
        if ret < 0 { return; }
      }
    }

    /** Saves what the buffer holds of the chunk and receives more of it. */
    method SaveAndReload(start: nat, p: nat, length0: nat, offset: int, total: int, ghost body: string,
                         ghost was: map<int, char>, ghost shift: int, ghost from: nat, ghost end: nat)
      returns (length: nat, ret: int)
      requires Valid() && InChunk(p, length0, offset, total, shift, from, end) && length0 < total
      requires 0 <= offset <= end <= |body| && OnWire(shift, body, from, end) && Fits(start, |body|)
      requires StoredTo(was, flash, start, body, offset)
      modifies this`pos, this`calls, this`log, this`flash, buf
      ensures Valid() && (ret == 0 || ret == RECEIVE_ERROR) && offset + length0 <= end
      ensures ret == 0 ==> InChunk(0, length, offset + length0, total - length0, shift, from, end) && pos > old(pos)
      ensures StoredTo(was, flash, start, body, offset + length0) && PrefixStored(was, flash, start, body)
      ensures Reliable(1) ==> ret == 0
      ensures ReadsIn(old(log), log, shift + from, shift + end)
    {
      hide StoredTo, AllStored, PrefixStored, OnWire, Reliable, Fits, Written;
      SaveHeld(start, p, length0, length0, offset, body, was, shift, from, end);
      length, ret := 0, 0;
      var max := total - length0;
      if max > BUF - 1 { max := BUF - 1; }
      var got := Reload(max);
      if got <= 0 { ret := RECEIVE_ERROR; } else { length := got; }
    }

    lemma SizedOnWire(p: nat, length: nat, body: string)
      requires Valid() && Next(p, length, body)
      ensures Held(p, length) && length <= pos && length <= |body|
      ensures OnWire(pos - length, body, 0, |body|) && |wire| == pos - length + |body|
    {
      assert body == body + "";
      After(wire, pos - length, body, "");
    }

    lemma DataOnWire(c: nat, body: string, from: nat, to: nat)
      requires from <= to <= |body| && c + (to - from) <= |wire|
      requires forall k :: 0 <= k < to - from ==> wire[c + k] == body[from..to][k]
      ensures OnWire(c - from, body, from, to)
    {
      forall k | from <= k < to ensures wire[c - from + k] == body[k] {
        assert wire[c + (k - from)] == body[from..to][k - from];
      }
    }

    lemma ChunkOnWire(c: nat, body: string, from: nat, to: nat, rest: string)
      requires from <= to <= |body| && c <= |wire| && wire[c..] == body[from..to] + (CRLF + rest)
      ensures OnWire(c - from, body, from, to) && LineAt(wire, c + to - from, "") && wire[c + to - from + 2..] == rest
    {
      hide LineAt, OnWire;
      var data := body[from..to];
      assert |data| == to - from;
      After(wire, c, data, CRLF + rest);
      DataOnWire(c, body, from, to);
      CrlfFirst(wire, c + |data|, rest);
    }

    /** The CRLF behind a chunk, after one more read when it is not complete. */
    method SkipCrlf(p0: nat, length0: nat, ghost c: nat) returns (p: nat, length: nat, ret: int)
      requires Valid() && Held(p0, length0) && pos - length0 == c && LineAt(wire, c, "")
      modifies this`pos, this`calls, this`log, buf
      ensures Valid() && (ret == 0 || ret == RECEIVE_ERROR)
      ensures ret == 0 ==> Held(p, length) && pos - length == c + 2
      ensures Reliable(2) ==> ret == 0
      ensures Reliable(1) ==> (ret == 0 <==> length0 > 0 || fragments(old(calls)) >= 2)
      ensures Reliable(1) ==> (ret == 0 <==> !LoneAt(old(log), log, c))
      ensures ReadsIn(old(log), log, c, c + 2)
    {
      p, length, ret := p0, length0, RECEIVE_ERROR;
      if length < 2 {
        var got;
        p, length, got := Refill(p, length);
        if got <= 0 { return; }
      }
      if buf[p] != '\r' || buf[p + 1] != '\n' { return; }
      p, length, ret := p + 2, length - 2, 0;
    }

    /** Chunks, one after the other, up to the one of size zero. */
    method ReceiveChunked(start: nat, p0: nat, length0: nat, ghost w: Payload) returns (n: int)
      requires Valid() && w.Chunked? && ChunksOk(w) && Next(p0, length0, ChunksFrom(w, 0)) && Fits(start, |Body(w)|)
      requires ReadsIn([], log, 0, Mark(ChunksFrom(w, 0)))
      modifies this`pos, this`calls, this`log, this`flash, buf
      ensures Valid() && (n == RECEIVE_ERROR || n == |Body(w)|)
      ensures n == |Body(w)| ==> AllStored(old(flash), flash, start, Body(w))
      ensures PrefixStored(old(flash), flash, start, Body(w))
      ensures Reliable(2) && ShortSizes(w) ==> n == |Body(w)|
      ensures Reliable(1) && ShortSizes(w) ==> n == if LoneCr(log, |wire|, w) then RECEIVE_ERROR else |Body(w)|
      ensures n == |Body(w)| ==> pos >= Mark(w.rest)
    {
      hide ChunksOk, ChunksFrom, Next, Reached, StoredTo, AllStored, PrefixStored, Body, Fits, Reliable, Written,
           ShortSizes, ReadsIn, LoneAt, LoneCr;
      ghost var k, was, body := 0, flash, Body(w);
      NothingStored(was, start, body);
      AllChunks(w);
      NoneYet(log, |wire|, w);
      var p, length := p0, length0;
      var offset: int, chunkedTotal: int, total: int := 0, 0, 0;
      while true
        invariant Valid() && 0 <= k <= |w.chunks| && 0 <= offset == chunkedTotal <= |body| && Reached(w, k, offset)
        invariant Next(p, length, ChunksFrom(w, k))
        invariant ReadsIn([], log, 0, Mark(ChunksFrom(w, k)))
        invariant Reliable(1) && ShortSizes(w) ==> !LoneCr(log, |wire|, w)
        invariant StoredTo(was, flash, start, body, offset) && PrefixStored(was, flash, start, body)
        decreases |w.chunks| - k
      {
        var ret: int;
        ghost var before := log;
        NextMark(p, length, ChunksFrom(w, k));
        p, length, offset, total, ret := TakeChunk(start, p, length, offset, w, k, was);
        LoneCrAt(before, log, |wire|, w, k);
        if ret < 0 { n := RECEIVE_ERROR; return; }
        if total == 0 { break; }
        chunkedTotal := chunkedTotal + total;
        k := k + 1;
      }
      assert offset == |body|;
      WholeStored(was, flash, start, body);
      n := chunkedTotal;
    }

    /** The k-th chunk, or the last. */
    method TakeChunk(start: nat, p0: nat, length0: nat, offset0: int, ghost w: Payload, ghost k: nat,
        ghost was: map<int, char>)
      returns (p: nat, length: nat, offset: int, total: int, ret: int)
      requires Valid() && w.Chunked? && ChunksOk(w) && k <= |w.chunks| && Next(p0, length0, ChunksFrom(w, k))
               && Fits(start, |Body(w)|)
      requires 0 <= offset0 <= |Body(w)| && Reached(w, k, offset0)
      requires StoredTo(was, flash, start, Body(w), offset0)
      modifies this`pos, this`calls, this`log, this`flash, buf
      ensures Valid() && (ret == 0 || ret == RECEIVE_ERROR) && PrefixStored(was, flash, start, Body(w))
      ensures ret == 0 ==> 0 <= offset <= |Body(w)| && StoredTo(was, flash, start, Body(w), offset)
      ensures ret == 0 ==> if total == 0 then k == |w.chunks| && offset == offset0 == |Body(w)|
                           else k < |w.chunks| && total > 0 && offset == offset0 + total
                                && Reached(w, k + 1, offset) && Next(p, length, ChunksFrom(w, k + 1))
      ensures Reliable(2) && ShortSizes(w) ==> ret == 0
      ensures ret == 0 && total == 0 ==> pos >= Mark(w.rest)
      ensures ReadsIn(old(log), log, Mark(ChunksFrom(w, k)),
              Mark(if k == |w.chunks| then w.rest else ChunksFrom(w, k + 1)))
      ensures Reliable(1) && ShortSizes(w) ==>
                (ret == 0 <==> k == |w.chunks| || !LoneAt(old(log), log, Mark(ChunksFrom(w, k + 1)) - 2))
    {
      hide ReadsIn, LoneAt, ChunksOk, ChunksFrom, ChunkRest, SizeLine, Reached, Next, StoredTo, AllStored,
           PrefixStored, Body, ShortSizes, ScanHex, Reliable, Fits;
      TwoIsOne();
      SizeIsRead(w, k, offset0);
      IsPrefix(was, flash, start, Body(w), offset0);
      offset, total := offset0, 0;
      var text: string;
      ghost var first, behind := Mark(ChunksFrom(w, k)), Mark(if k == |w.chunks| then w.rest else ChunksFrom(w, k + 1));
      RestMark(w, k, offset0);
      text, p, length, ret := TakeSize(p0, length0, w, k);
      ghost var before, data := log, Mark(ChunkRest(w, k));
      ReadsWiden(old(log), log, first, data, behind);
      if ret <= 0 { ret := RECEIVE_ERROR; return; }
      total := ScanHex(text);
      if total == 0 { ret := 0; return; }
      p, length, offset, ret := ReceiveChunk(start, p, length, total, offset, Body(w), ChunksFrom(w, k + 1), was);
      ReadsInTwice(old(log), before, log, first, data, behind);
      LoneLater(old(log), before, log, first, data, behind - 2, behind);
    }

    /** The line behind which the k-th chunk's bytes and CRLF follow. */
    lemma RestMark(w: Payload, k: nat, offset: nat)
      requires ChunksOk(w) && k <= |w.chunks| && Reached(w, k, offset)
      ensures k == |w.chunks| ==> ChunkRest(w, k) == w.rest
      ensures k < |w.chunks| ==> Mark(ChunkRest(w, k)) == Mark(ChunksFrom(w, k + 1)) - 2 - ScanHex(SizeLine(w, k))
    {
      SizeIsRead(w, k, offset);
    }

    lemma HeadersMark(r: Response)
      requires wire == Wire(r) && WellFormed(r)
      ensures 0 <= Mark(HeadersFrom(r, 0)) <= Mark(PayloadWire(r.payload))
    {
      FirstLine(r);
      LongerHeaders(r.fields[0..], PayloadWire(r.payload));
    }

    lemma NextMark(p: nat, length: nat, rest: string)
      requires Valid() && Next(p, length, rest)
      ensures 0 <= Mark(rest) <= pos
    {
    }

    /** Takes the size line of the k-th chunk, or of the last. */
    method TakeSize(p0: nat, length0: nat, ghost w: Payload, ghost k: nat)
        returns (text: string, p: nat, length: nat, ret: int)
      requires Valid() && w.Chunked? && ChunksOk(w) && k <= |w.chunks| && Next(p0, length0, ChunksFrom(w, k))
      modifies this`pos, this`calls, this`log, buf
      ensures Valid()
      ensures ret > 0 ==> text == SizeLine(w, k) && Next(p, length, ChunkRest(w, k))
      ensures Reliable(1) && ShortSizes(w) ==> ret > 0
      ensures ret > 0 ==> pos >= Mark(ChunkRest(w, k))
      ensures ReadsIn(old(log), log, Mark(ChunksFrom(w, k)), Mark(ChunkRest(w, k)))
      ensures Mark(ChunksFrom(w, k)) <= Mark(ChunkRest(w, k))
    {
      hide Next, ChunksFrom, ChunksOk, ChunkRest, SizeLine, Plain, ShortSizes, ReadsIn;
      SizeFirst(w, k);
      text, p, length, ret := TakeLine(p0, length0, SizeLine(w, k), ChunkRest(w, k));
      if ret > 0 { NextMark(p, length, ChunkRest(w, k)); }
    }

    /** __httpDownload from a connection that is up: the status line, the header fields, the payload.
        A nonnegative n is either the 0 of a timeout before the status line, or the whole body is in the
        file; in every case the file holds a prefix of the body and is otherwise untouched. */
    method Exchange(start: nat, ghost r: Response) returns (n: int, relocate: bool)
      requires Valid() && pos == 0 && WellFormed(r) && wire == Wire(r) && Fits(start, |Body(r.payload)|)
      modifies this`pos, this`calls, this`log, this`flash, buf
      ensures Valid() && PrefixStored(old(flash), flash, start, Body(r.payload))
      ensures n > 0 || relocate ==> Accepted(r) && (relocate <==> Redirects(r))
      ensures relocate ==> n == 0
      ensures n > 0 ==> n == |Body(r.payload)|
      ensures n == |Body(r.payload)| && n != 0 ==> AllStored(old(flash), flash, start, Body(r.payload))
      ensures n == 0 || !Accepted(r) || Redirects(r) ==> flash == old(flash)
      ensures n < 0 ==> n == -6 || (!Accepted(r) && n == 0 - r.code)
      ensures Reliable(Pieces(r.payload)) && ShortLines(r) ==>
                if !Accepted(r) then n == 0 - r.code
                else if Redirects(r) then relocate
                else Recognised(r) ==> n == |Body(r.payload)| && !relocate
      ensures Reliable(1) && ShortLines(r) ==>
                if !Accepted(r) then n == 0 - r.code
                else if Redirects(r) then relocate
                else n == if Recognised(r) && !LoneCr(log, |wire|, r.payload) then |Body(r.payload)| else RECEIVE_ERROR
      ensures r.payload.Chunked? && n > 0 ==> pos >= Mark(r.payload.rest)
    {
      hide Reliable, StoredTo, AllStored, PrefixStored, Written, Understood, HeadersFrom, StatusLine, Plain,
           HeadersOk, WellFormed, Next, ChunksOk, ChunksFrom, PayloadWire, Recognised, Redirects, Body, ShortHeaders,
           ShortSizes, ReadsIn, LoneCr;
      n, relocate := 0, false;
      NothingStored(flash, start, Body(r.payload));
      FirstLine(r);
      HeadersAreOk(r);
      ReliableEnough(r.payload);
      for i := 0 to BUF
        invariant forall j :: 0 <= j < i ==> buf[j] == '\0'
        modifies buf
      {
        buf[i] := '\0';
      }
      var p, length, text, ret;
      Untouched();
      text, p, length, ret := TakeLine(0, 0, StatusLine(r), HeadersFrom(r, 0));
      if ret <= 0 { n := ret; return; }
      n := CheckStatus(text, r);
      if n < 0 { return; }
      var flag, total;
      ghost var before := log;
      p, length, flag, total, relocate, ret := ReadHeaders(p, length, r);
      if ret < 0 { n := ret; return; }
      if relocate { return; }
      FramingDecides(r, flag, total);
      NextMark(p, length, PayloadWire(r.payload));
      HeadersMark(r);
      ReadsInTwice([], before, log, 0, Mark(HeadersFrom(r, 0)), Mark(PayloadWire(r.payload)));
      if flag == 1 {
        OnlyChunks(r.payload);
        n := ReceiveSized(start, p, length, total, Body(r.payload));
      } else if flag == 2 {
        n := ReceiveChunked(start, p, length, r.payload);
      } else {
        n := RECEIVE_ERROR;
      }
      if Body(r.payload) == "" { EmptyStored(old(flash), flash, start, Body(r.payload)); }
    }
  }

  // ----- a network that delivers byte by byte ---------------------------------------------

  /** Reads that cover the wire one byte at a time have begun everywhere. */
  lemma {:induction false} EveryByteRead(fragments: nat -> int, log: seq<Read>, pos: nat, c: nat)
    requires Logged(fragments, log, pos) && (forall i :: fragments(i) == 1) && c < pos
    ensures LoneAt([], log, c)
    decreases |log|
  {
    var last := log[|log| - 1];
    if c < last.from {
      EveryByteRead(fragments, log[..|log| - 1], last.from, c);
      var i :| 0 <= i < |log| - 1 && log[..|log| - 1][i].from == c && log[..|log| - 1][i].count == 1;
      assert log[i].from == c && log[i].count == 1;
    } else {
      assert last.from == c && last.count == 1;
    }
  }

  lemma FirstChunkEnds(r: Response, log: seq<Read>, pos: nat)
    requires WellFormed(r) && r.payload.Chunked? && r.payload.chunks != []
    ensures |Body(r.payload)| > 0 && 0 <= ChunkEnd(r.payload, 0, |Wire(r)|) < |Wire(r)| - |r.payload.rest|
    ensures LoneAt([], log, ChunkEnd(r.payload, 0, |Wire(r)|)) ==> LoneCr(log, |Wire(r)|, r.payload)
  {
    var w := r.payload;
    FirstLine(r);
    LongerHeaders(r.fields[0..], PayloadWire(w));
    assert w.chunks[0..] == w.chunks;
    assert ChunkOk(w.chunks[0]);
    ChunksShrink(w, 0, 1);
    ChunksShrink(w, 1, |w.chunks|);
  }

  /** No response with a chunk in it survives such a network, though no read ever fails: the read behind the
      first chunk brings the CR alone, before the response has been read to its end. */
  lemma ByteByByte(r: Response, fragments: nat -> int, log: seq<Read>, pos: nat)
    requires WellFormed(r) && r.payload.Chunked? && r.payload.chunks != []
    requires Logged(fragments, log, pos) && (forall i :: fragments(i) == 1) && pos >= |Wire(r)| - |r.payload.rest|
    ensures LoneCr(log, |Wire(r)|, r.payload)
  {
    FirstChunkEnds(r, log, pos);
    EveryByteRead(fragments, log, pos, ChunkEnd(r.payload, 0, |Wire(r)|));
  }

  const HELLO := Response("HTTP/1.1", 200, " OK", [Field("Transfer-Encoding", " ", "chunked", "")],
                          Chunked([Chunk("5", "", "hello")], "0", "", "\r\n"))

  lemma HelloSizes()
    ensures SizeLineOk("5", "", 5) && SizeLineOk("0", "", 0) && Body(HELLO.payload) == "hello"
  {
    assert "5"[..0] == "" && "0"[..0] == "";
    assert HexValue("5") == 5 && HexValue("0") == 0;
    assert HELLO.payload.chunks[1..] == [];
    assert Joined(HELLO.payload.chunks) == "hello" + Joined([]);
  }

  lemma HelloField()
    ensures var f := HELLO.fields[0]; FieldOk(f) && !IsLength(f) && !IsLocation(f) && IsCoding(f) && Tight(f)
  {
    hide SameName, FieldOk;
    FieldNames();
    assert FieldOk(HELLO.fields[0]) by { HelloFieldOk(); }
  }

  lemma HelloFieldOk()
    ensures FieldOk(Field("Transfer-Encoding", " ", "chunked", ""))
  {
    hide Plain;
    HelloName();
    HelloValue();
  }

  lemma HelloName()
    ensures Plain("Transfer-Encoding") && ':' !in "Transfer-Encoding" && ' ' !in "Transfer-Encoding"
  {
    LettersArePlain("Transfer-Encoding");
  }

  lemma HelloValue()
    ensures Plain("chunked")
  {
    LettersArePlain("chunked");
  }

  lemma LettersArePlain(s: string)
    requires forall i :: 0 <= i < |s| ==> s[i] == '-' || 'A' <= s[i] <= 'Z' || 'a' <= s[i] <= 'z'
    ensures Plain(s) && ':' !in s && ' ' !in s
  {
  }

  lemma FieldNames()
    ensures SameName("Transfer-Encoding", "Transfer-Encoding") && SameName("Content-Length", "Content-Length")
    ensures !SameName("Transfer-Encoding", "Content-Length") && !SameName("Content-Length", "Transfer-Encoding")
    ensures !SameName("Transfer-Encoding", "Location") && !SameName("Content-Length", "Location")
  {
    hide SameName;
    SameNameItself("Transfer-Encoding");
    SameNameItself("Content-Length");
    NamesApart("Transfer-Encoding", "Content-Length");
    NamesApart("Content-Length", "Transfer-Encoding");
    NamesApart("Transfer-Encoding", "Location");
    NamesApart("Content-Length", "Location");
  }

  lemma NamesApart(a: string, b: string)
    requires |a| != |b|
    ensures !SameName(a, b)
  {
    assert |Lower(a)| == |a| && |Lower(b)| == |b|;
  }

  lemma HelloLines()
    ensures ShortLines(HELLO)
  {
    ThreeDigits(200);
    hide Decimal, FieldOk;
    assert |FieldLine(HELLO.fields[0])| <= BUF - 3;
  }

  lemma HelloIsWellFormed()
    ensures WellFormed(HELLO) && ShortLines(HELLO) && Accepted(HELLO) && !Redirects(HELLO) && Recognised(HELLO)
    ensures Body(HELLO.payload) == "hello"
  {
    hide SizeLineOk, IsLength, IsLocation, IsCoding, Tight, FieldOk, ShortLines, HexValue, Lower, SameName;
    HelloSizes();
    HelloField();
    HelloLines();
    assert SameName("chunked", "chunked") by { SameNameItself("chunked"); }
  }

  lemma SameNameItself(s: string)
    ensures SameName(s, s)
  {
  }

  /** "hello" in one chunk: well-formed, within every limit and recognised, and lost when it comes byte by byte. */
  lemma LoneCrFails(log: seq<Read>, pos: nat)
    requires Logged(_ => 1, log, pos) && pos >= |Wire(HELLO)| - |CRLF|
    ensures WellFormed(HELLO) && ShortLines(HELLO) && Accepted(HELLO) && !Redirects(HELLO) && Recognised(HELLO)
    ensures LoneCr(log, |Wire(HELLO)|, HELLO.payload)
  {
    HelloIsWellFormed();
    ByteByByte(HELLO, _ => 1, log, pos);
  }

  // ----- redirects and ranges -------------------------------------------------------------

  /** One connection of a request: what setting it up returned (parsing the URL, connecting,
      sending), and what came back on it. */
  datatype Hop = Hop(setup: int, response: Response, fragments: nat -> int)

  predicate Content(h: Hop) { Accepted(h.response) && !Redirects(h.response) }

  predicate HopOk(h: Hop, start: nat) {
    h.setup <= 0 && WellFormed(h.response) && Fits(start, |Body(h.response.payload)|)
  }

  /** Nothing is lost on the way: the connection comes up, the network delivers, the lines fit. */
  ghost predicate Smooth(h: Hop) {
    && h.setup == 0 && ShortLines(h.response) && (Content(h) ==> Recognised(h.response))
    && forall i :: h.fragments(i) >= Pieces(h.response.payload)
  }

  /** Every connection is smooth and only the last is not redirected. */
  ghost predicate SmoothAll(hops: seq<Hop>) {
    && |hops| > 0 && (forall i :: 0 <= i < |hops| ==> Smooth(hops[i]))
    && forall i :: 0 <= i < |hops| ==> if i == |hops| - 1 then !Redirects(hops[i].response)
                                       else Redirects(hops[i].response) && Accepted(hops[i].response)
  }

  /** What one connection can leave behind. */
  ghost predicate Result(h: Hop, start: nat, file0: map<int, char>, file: map<int, char>, n: int) {
    && (n > 0 ==> Content(h) && n == |Body(h.response.payload)|
                  && AllStored(file0, file, start, Body(h.response.payload)))
    && (file == file0 || (Content(h) && PrefixStored(file0, file, start, Body(h.response.payload))))
    && (n == 0 ==> file == file0)
    && (n < 0 ==> n == -6 || n == -4 || n == h.setup
                  || (!Accepted(h.response) && n == 0 - h.response.code))
  }

  predicate Complete(h: Hop, n: int) {
    !Redirects(h.response) && n == if Content(h) then |Body(h.response.payload)| else 0 - h.response.code
  }

  method Visit(h: Hop, start: nat, file0: map<int, char>) returns (n: int, file: map<int, char>, relocate: bool)
    requires HopOk(h, start)
    ensures Result(h, start, file0, file, n)
    ensures relocate ==> file == file0 && Redirects(h.response)
    ensures Smooth(h) && !relocate ==> Complete(h, n) || (Redirects(h.response) && !Accepted(h.response))
  {
    n, file, relocate := h.setup, file0, false;
    if n != 0 { return; }
    var c := new Connection(Wire(h.response), h.fragments, file);
    n, relocate := c.Exchange(start, h.response);
    file := c.flash;
  }

  /** __httpDownload: connections until one is not redirected. The ghost result names the last one used. */
  method Fetch(hops: seq<Hop>, start: nat, file0: map<int, char>)
      returns (n: int, file: map<int, char>, ghost last: nat)
    requires |hops| > 0 && forall i :: 0 <= i < |hops| ==> HopOk(hops[i], start)
    ensures last < |hops| && Result(hops[last], start, file0, file, n)
    ensures SmoothAll(hops) ==> Complete(hops[last], n) && last == |hops| - 1
  {
    n, file, last := CONNECT_ERROR, file0, 0;
    for i := 0 to |hops|
      invariant file == file0 && last < |hops| && n == CONNECT_ERROR
      invariant SmoothAll(hops) ==> i < |hops|
    {
      last := i;
      var relocate;
      n, file, relocate := Visit(hops[i], start, file);
      if !relocate { return; }
      n := CONNECT_ERROR;
    }
  }

  function RangeOf(whole: string, start: nat): string
    requires start <= |whole|
  {
    if start + RANGE < |whole| then whole[start..start + RANGE] else whole[start..]
  }

  /** The server's content for a request of the range at start: that part of the file, and 416 behind its end. */
  predicate Serves(hops: seq<Hop>, whole: string, start: nat) {
    |hops| > 0 && forall i :: 0 <= i < |hops| ==>
      && HopOk(hops[i], start) && hops[i].setup != -416 && (hops[i].response.code == 416 ==> start >= |whole|)
      && (Content(hops[i]) ==> start < |whole| && Body(hops[i].response.payload) == RangeOf(whole, start))
  }

  ghost predicate SmoothAt(hops: seq<Hop>, whole: string, start: nat) {
    && SmoothAll(hops)
    && if start < |whole| then Content(hops[|hops| - 1]) else hops[|hops| - 1].response.code == 416
  }

  /** A prefix of the next range, written behind the bytes already there, makes a longer prefix of the whole. */
  lemma RangeStored(file0: map<int, char>, was: map<int, char>, now: map<int, char>, start: nat, whole: string)
    requires start <= |whole| && StoredTo(file0, was, 0, whole, start)
    requires now == was || PrefixStored(was, now, start, RangeOf(whole, start))
    ensures PrefixStored(file0, now, 0, whole)
    ensures AllStored(was, now, start, RangeOf(whole, start)) ==>
            StoredTo(file0, now, 0, whole, start + |RangeOf(whole, start)|)
  {
    hide Written;
    var part := RangeOf(whole, start);
    WrittenFurther(file0, 0, whole, start, start + |part|, part);
    AllStoredIsWritten(was, now, start, part);
    if now == was {
      IsPrefix(file0, now, 0, whole, start);
    } else {
      var m :| StoredTo(was, now, start, part, m);
      WrittenFurther(file0, 0, whole, start, start + m, part[..m]);
      IsPrefix(file0, now, 0, whole, start + m);
    }
  }

  /** What one range request brings, from a server that honours it. */
  lemma RangeFetched(hops: seq<Hop>, last: nat, whole: string, start: nat, was: map<int, char>, file: map<int, char>,
      n: int)
    requires Serves(hops, whole, start) && start <= |whole| && last < |hops| && Result(hops[last], start, was, file, n)
    ensures n > 0 ==> start + n <= |whole| && n <= RANGE && (n < RANGE ==> start + n == |whole|)
                      && |RangeOf(whole, start)| == n && AllStored(was, file, start, RangeOf(whole, start))
    ensures file == was || PrefixStored(was, file, start, RangeOf(whole, start))
    ensures n == 0 || n == -416 ==> file == was
    ensures n == -416 ==> start == |whole|
    ensures SmoothAt(hops, whole, start) && last == |hops| - 1 && Complete(hops[last], n) ==>
              n == if start < |whole| then |RangeOf(whole, start)| else -416
  {
    hide StoredTo, AllStored, PrefixStored, WellFormed, Body;
  }

  lemma RangesServed(hops: seq<Hop>, whole: string, start: nat)
    requires Serves(hops, whole, start)
    ensures |hops| > 0 && forall i :: 0 <= i < |hops| ==> HopOk(hops[i], start)
    ensures SmoothAt(hops, whole, start) ==> SmoothAll(hops)
    ensures start <= |whole| ==> |RangeOf(whole, start)| == if start + RANGE < |whole| then RANGE else |whole| - start
  {
  }

  /** One range of a file whose first `start` bytes are there already. */
  method FetchRange(hops: seq<Hop>, ghost whole: string, start: nat, ghost file0: map<int, char>, was: map<int, char>)
    returns (n: int, file: map<int, char>)
    requires start <= |whole| && Serves(hops, whole, start) && StoredTo(file0, was, 0, whole, start)
    ensures PrefixStored(file0, file, 0, whole)
    ensures n >= 0 ==> start + n <= |whole| && n <= RANGE && StoredTo(file0, file, 0, whole, start + n)
    ensures n == -416 ==> start == |whole| && file == was
    ensures SmoothAt(hops, whole, start) ==>
              n == if start == |whole| then -416 else if start + RANGE < |whole| then RANGE else |whole| - start
  {
    hide StoredTo, AllStored, PrefixStored, Serves, SmoothAt, SmoothAll, Complete, Result, Written, RangeOf, HopOk;
    RangesServed(hops, whole, start);
    ghost var last;
    n, file, last := Fetch(hops, start, was);
    RangeFetched(hops, last, whole, start, was, file, n);
    RangeStored(file0, was, file, start, whole);
  }

  /** Every answer honours Range; the i-th request is for the i-th range, and the last one begins at the
      end of the file at the latest. */
  ghost predicate AllServe(requests: nat -> seq<Hop>, whole: string) {
    forall i: nat :: 2048 * i <= |whole| ==> Serves(requests(i), whole, 2048 * i)
  }

  ghost predicate AllSmooth(requests: nat -> seq<Hop>, whole: string) {
    forall i: nat :: 2048 * i <= |whole| ==> SmoothAt(requests(i), whole, 2048 * i)
  }

  lemma ServedAt(requests: nat -> seq<Hop>, whole: string, k: nat)
    requires AllServe(requests, whole) && 2048 * k <= |whole|
    ensures Serves(requests(k), whole, 2048 * k)
    ensures AllSmooth(requests, whole) ==> SmoothAt(requests(k), whole, 2048 * k)
  {
  }

  /** httpDownload against a server that honours Range: what is returned is written, from the start of
      the file and without a gap, and when nothing times out it is all of it. */
  method Download(requests: nat -> seq<Hop>, whole: string, file0: map<int, char>)
      returns (n: int, file: map<int, char>)
    requires |whole| < 0x8000_0000 && AllServe(requests, whole)
    ensures n >= 0 ==> n <= |whole| && StoredTo(file0, file, 0, whole, n)
    ensures PrefixStored(file0, file, 0, whole)
    ensures AllSmooth(requests, whole) ==> n == |whole|
  {
    hide StoredTo, AllStored, PrefixStored, Serves, SmoothAt, AllServe, AllSmooth, Written;
    var total: int, k: nat := 0, 0;
    file := file0;
    NothingStored(file0, 0, whole);
    while true
      invariant total == 2048 * k && 0 <= total <= |whole|
      invariant StoredTo(file0, file, 0, whole, total)
      decreases |whole| - total
    {
      ServedAt(requests, whole, k);
      n, file := FetchRange(requests(k), whole, total, file0, file);
      if n == -416 { break; }
      if n < 0 { return; }
      total := total + n;
      if n != RANGE { break; }
      k := k + 1;
    }
    IsPrefix(file0, file, 0, whole, total);
    n := total;
  }

  // ----- there is such a server for every file --------------------------------------------

  function LengthField(n: nat): Field { Field("Content-Length", " ", Decimal(n), "") }

  /** 206 with the range, or 416 with nothing behind the end of the file. */
  function Answer(whole: string, start: nat): Response {
    if start < |whole| then Response("HTTP/1.1", 206, " OK", [LengthField(|RangeOf(whole, start)|)],
        Sized(RangeOf(whole, start)))
    else Response("HTTP/1.1", 416, "", [LengthField(0)], Sized(""))
  }

  const WIDE: nat -> int := _ => 2048

  function RangeServer(whole: string): nat -> seq<Hop> {
    (i: nat) => [Hop(0, Answer(whole, 2048 * i), WIDE)]
  }

  lemma LengthFieldOk(n: nat)
    requires n <= RANGE
    ensures var f := LengthField(n);
            && FieldOk(f) && IsLength(f) && !IsCoding(f) && !IsLocation(f)
            && AllDigits(f.value) && Value(f.value) == n && |FieldLine(f)| <= 20
  {
    hide SameName, Decimal, Value;
    assert Pow10(4) == 10_000 by { FourDigits(); }
    DecimalLength(n, 4);
    ValueOfDecimal(n);
    FieldNames();
    assert forall i :: 0 <= i < |Decimal(n)| ==> IsDigit(Decimal(n)[i]);
  }

  lemma FourDigits()
    ensures Pow10(4) == 10_000
  {
    assert Pow10(4) == 10 * Pow10(3) == 100 * Pow10(2) == 1000 * Pow10(1) == 10_000;
  }

  /** A response with nothing but a length field is well-formed and fits. */
  lemma LengthAlone(code: nat, reason: string, body: string)
    requires 100 <= code <= 999 && |body| <= RANGE && Plain(reason) && |reason| <= 9
             && (reason != "" ==> reason[0] == ' ')
    ensures var r := Response("HTTP/1.1", code, reason, [LengthField(|body|)], Sized(body));
            WellFormed(r) && ShortLines(r) && Recognised(r) && !Redirects(r)
  {
    hide LengthField, FieldOk, IsLength, IsCoding, IsLocation, AllDigits, Value, Decimal, FieldLine;
    LengthFieldOk(|body|);
    ThreeDigits(code);
    var r := Response("HTTP/1.1", code, reason, [LengthField(|body|)], Sized(body));
    assert r.fields[0] == LengthField(|body|);
    assert |StatusLine(r)| <= 21;
    assert ShortHeaders(r) by {
      forall k | 0 <= k <= 1 ensures |HeaderLine(r.fields, k)| <= 20 { }
    }
  }

  lemma AnswerServes(whole: string, start: nat, fragments: nat -> int)
    requires start <= |whole| < 0x8000_0000 && forall i :: fragments(i) == 2048
    ensures var hops := [Hop(0, Answer(whole, start), fragments)];
            Serves(hops, whole, start) && SmoothAt(hops, whole, start)
  {
    hide WellFormed, ShortLines, Recognised, Redirects, Plain, LengthField;
    assert Plain(" OK") && Plain("") by { PlainWords(); }
    LengthAlone(206, " OK", RangeOf(whole, start));
    LengthAlone(416, "", "");
  }

  lemma PlainWords()
    ensures Plain(" OK") && Plain("")
  {
  }

  /** For every file below 2^31 bytes there are answers as Download asks for them, and smooth ones. */
  lemma EveryFileCanBeServed(whole: string)
    requires |whole| < 0x8000_0000
    ensures AllServe(RangeServer(whole), whole) && AllSmooth(RangeServer(whole), whole)
  {
    hide Serves, SmoothAt, Answer;
    forall i: nat | 2048 * i <= |whole|
      ensures Serves(RangeServer(whole)(i), whole, 2048 * i) && SmoothAt(RangeServer(whole)(i), whole, 2048 * i)
    {
      AnswerServes(whole, 2048 * i, WIDE);
    }
  }

  /** Fetched from that server every file arrives whole. */
  method FetchWhole(whole: string, file0: map<int, char>) returns (n: int, file: map<int, char>)
    requires |whole| < 0x8000_0000
    ensures n == |whole| && file == Written(file0, 0, whole)
  {
    EveryFileCanBeServed(whole);
    n, file := Download(RangeServer(whole), whole, file0);
    assert whole[..n] == whole;
  }
}
