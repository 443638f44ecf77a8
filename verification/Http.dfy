/** HTTP/1.1 responses as a server may send them (RFC 9112), byte for byte, and how the firmware
    reads their lines. */
module Http {
  import opened Text

  const CRLF := "\r\n"

  /** A C int. */
  type int32 = x: int | -0x8000_0000 <= x < 0x8000_0000

  predicate Blank(c: char) { c == ' ' || c == '\t' }

  predicate Blanks(s: string) { forall i :: 0 <= i < |s| ==> Blank(s[i]) }

  predicate Spaces(s: string) { forall i :: 0 <= i < |s| ==> s[i] == ' ' }

  /** Text that a line may hold. */
  predicate Plain(s: string) { forall i :: 0 <= i < |s| ==> s[i] != '\r' && s[i] != '\n' && s[i] != '\0' }

  // ----- responses ------------------------------------------------------------------------

  /** A header field: its name, and its value with the blanks around it. */
  datatype Field = Field(name: string, before: string, value: string, after: string)

  datatype Chunk = Chunk(size: string, ext: string, data: string)

  datatype Payload =
    | Sized(body: string)
    | Chunked(chunks: seq<Chunk>, last: string, lastExt: string, rest: string)
    | Unframed(rest: string)

  datatype Response = Response(version: string, code: nat, reason: string, fields: seq<Field>, payload: Payload)

  function Lower(s: string): (l: string)
    ensures |l| == |s|
    ensures forall i :: 0 <= i < |s| ==> l[i] == if 'A' <= s[i] <= 'Z' then s[i] - 'A' + 'a' else s[i]
  {
    seq(|s|, i requires 0 <= i < |s| => if 'A' <= s[i] <= 'Z' then s[i] - 'A' + 'a' else s[i])
  }

  /** strcasecmp(a, b) == 0. */
  predicate SameName(a: string, b: string) { Lower(a) == Lower(b) }

  predicate FieldOk(f: Field) {
    && f.name != "" && Plain(f.name) && ':' !in f.name && ' ' !in f.name && Blanks(f.before) && Blanks(f.after)
       && Plain(f.value)
    && (f.value != "" ==> !Blank(f.value[0]) && !Blank(f.value[|f.value| - 1]))
  }

  predicate IsHex(c: char) { IsDigit(c) || 'a' <= c <= 'f' || 'A' <= c <= 'F' }

  function HexDigit(c: char): (d: nat)
    requires IsHex(c)
    ensures d < 16
  {
    if IsDigit(c) then c as int - '0' as int else if c <= 'F' then c as int - 'A' as int + 10
        else c as int - 'a' as int + 10
  }

  function HexValue(s: string): nat
    requires forall i :: 0 <= i < |s| ==> IsHex(s[i])
  {
    if s == "" then 0 else 16 * HexValue(s[..|s| - 1]) + HexDigit(s[|s| - 1])
  }

  /** A chunk's size line: hexadecimal digits, then nothing or an extension. */
  predicate SizeLineOk(size: string, ext: string, n: nat) {
    && size != "" && (forall i :: 0 <= i < |size| ==> IsHex(size[i])) && HexValue(size) == n
    && Plain(ext) && (ext != "" ==> Blank(ext[0]) || ext[0] == ';')
  }

  predicate ChunkOk(c: Chunk) { c.data != "" && SizeLineOk(c.size, c.ext, |c.data|) }

  function Joined(chunks: seq<Chunk>): string {
    if chunks == [] then "" else chunks[0].data + Joined(chunks[1..])
  }

  /** The decoded content. */
  function Body(p: Payload): string {
    match p
    case Sized(body) => body
    case Chunked(chunks, _, _, _) => Joined(chunks)
    case Unframed(_) => ""
  }

  predicate IsLength(f: Field) { SameName(f.name, "Content-Length") }
  predicate IsCoding(f: Field) { SameName(f.name, "Transfer-Encoding") }
  predicate IsLocation(f: Field) { SameName(f.name, "Location") }

  /** The header fields that frame the payload agree with it. */
  predicate Framed(fields: seq<Field>, p: Payload) {
    match p
    case Sized(body) =>
      && (exists i :: 0 <= i < |fields| && IsLength(fields[i]))
      && (forall i :: 0 <= i < |fields| ==>
          && !IsCoding(fields[i])
          && (IsLength(fields[i]) ==> AllDigits(fields[i].value) && Value(fields[i].value) == |body|))
    case Chunked(chunks, last, lastExt, _) =>
      && (exists i :: 0 <= i < |fields| && IsCoding(fields[i]))
      && (forall i :: 0 <= i < |fields| ==>
          !IsLength(fields[i]) && (IsCoding(fields[i]) ==> SameName(fields[i].value, "chunked")))
      && (forall i :: 0 <= i < |chunks| ==> ChunkOk(chunks[i])) && SizeLineOk(last, lastExt, 0)
    case Unframed(_) => forall i :: 0 <= i < |fields| ==> !IsLength(fields[i]) && !IsCoding(fields[i])
  }

  predicate WellFormed(r: Response) {
    && Plain(r.version) && ' ' !in r.version && 100 <= r.code <= 999
    && Plain(r.reason) && (r.reason != "" ==> r.reason[0] == ' ')
    && (forall i :: 0 <= i < |r.fields| ==> FieldOk(r.fields[i])) && Framed(r.fields, r.payload)
  }

  // ----- on the wire ----------------------------------------------------------------------

  function StatusLine(r: Response): string {
    r.version + ([' '] + (Decimal(r.code) + r.reason))
  }

  function FieldLine(f: Field): string {
    f.name + ([':'] + (f.before + f.value + f.after))
  }

  function ChunkWire(chunks: seq<Chunk>, last: string, rest: string): string {
    if chunks == [] then last + (CRLF + rest)
    else (chunks[0].size + chunks[0].ext) + (CRLF + (chunks[0].data + (CRLF + ChunkWire(chunks[1..], last, rest))))
  }

  function PayloadWire(p: Payload): string {
    match p
    case Sized(body) => body
    case Chunked(chunks, last, lastExt, rest) => ChunkWire(chunks, last + lastExt, rest)
    case Unframed(rest) => rest
  }

  function HeaderWire(fields: seq<Field>, after: string): string {
    if fields == [] then "" + (CRLF + after) else FieldLine(fields[0]) + (CRLF + HeaderWire(fields[1..], after))
  }

  function Wire(r: Response): string {
    StatusLine(r) + (CRLF + HeaderWire(r.fields, PayloadWire(r.payload)))
  }

  /** A line and its CRLF stand at c. */
  ghost predicate LineAt(wire: string, c: int, line: string) {
    && 0 <= c && c + |line| + 2 <= |wire| && wire[c + |line|] == '\r' && wire[c + |line| + 1] == '\n'
    && forall k :: 0 <= k < |line| ==> wire[c + k] == line[k]
  }

  lemma After(wire: string, c: nat, a: string, rest: string)
    requires c <= |wire| && wire[c..] == a + rest
    ensures c + |a| <= |wire| && wire[c + |a|..] == rest
    ensures forall k :: 0 <= k < |a| ==> wire[c + k] == a[k]
  {
    forall k | 0 <= k < |a| ensures wire[c + k] == a[k] { assert wire[c..][k] == (a + rest)[k]; }
    assert wire[c + |a|..] == wire[c..][|a|..];
  }

  lemma LineFirst(wire: string, c: nat, line: string, rest: string)
    requires c <= |wire| && wire[c..] == line + (CRLF + rest)
    ensures LineAt(wire, c, line) && wire[c + |line| + 2..] == rest
  {
    After(wire, c, line, CRLF + rest);
    After(wire, c + |line|, CRLF, rest);
    assert wire[c + |line| + 0] == '\r' && wire[c + |line| + 1] == '\n';
  }

  lemma CrlfFirst(wire: string, c: nat, rest: string)
    requires c <= |wire| && wire[c..] == CRLF + rest
    ensures LineAt(wire, c, "") && wire[c + 2..] == rest
  {
    assert "" + (CRLF + rest) == CRLF + rest;
    LineFirst(wire, c, "", rest);
  }

  // ----- how the firmware reads a line ----------------------------------------------------

  function TrimLeft(s: string): (t: string)
    ensures |t| <= |s|
  {
    if s != "" && s[0] == ' ' then TrimLeft(s[1..]) else s
  }

  function TrimRight(s: string): (t: string)
    ensures |t| <= |s|
  {
    if s != "" && s[|s| - 1] == ' ' then TrimRight(s[..|s| - 1]) else s
  }

  /** trim(): spaces only. */
  function Trim(s: string): string { TrimRight(TrimLeft(s)) }

  function HexRun(s: string): (n: nat)
    ensures n <= |s| && forall i :: 0 <= i < n ==> IsHex(s[i])
    ensures n < |s| ==> !IsHex(s[n])
  {
    if s != "" && IsHex(s[0]) then HexRun(s[1..]) + 1 else 0
  }

  /** sscanf(line, "%x", &total) on a size line. */
  function ScanHex(s: string): nat {
    HexValue(s[..HexRun(s)])
  }

  lemma ScanSize(size: string, ext: string, n: nat)
    requires SizeLineOk(size, ext, n)
    ensures ScanHex(size + ext) == n && Plain(size + ext)
  {
    var s := size + ext;
    assert s[..|size|] == size;
    assert forall i :: 0 <= i < |size| ==> s[i] == size[i];
    assert |size| < |s| ==> s[|size|] == ext[0];
    assert HexRun(s) == |size|;
  }

  /** A size as the standard's notation writes it, in letters of either case. */
  function Hex(n: nat, digits: string): (s: string)
    requires digits == "0123456789abcdef" || digits == "0123456789ABCDEF"
    ensures s != "" && forall i :: 0 <= i < |s| ==> s[i] in digits
  {
    if n < 16 then [digits[n]] else Hex(n / 16, digits) + [digits[n % 16]]
  }

  lemma DigitIsRead(d: nat, digits: string)
    requires d < 16 && (digits == "0123456789abcdef" || digits == "0123456789ABCDEF")
    ensures IsHex(digits[d]) && HexDigit(digits[d]) == d
  {
    if digits == "0123456789abcdef" { LowerDigit(d); } else { UpperDigit(d); }
  }

  lemma LowerDigit(d: nat)
    requires d < 16
    ensures "0123456789abcdef"[d] as int == if d < 10 then 48 + d else 87 + d
  {
  }

  lemma UpperDigit(d: nat)
    requires d < 16
    ensures "0123456789ABCDEF"[d] as int == if d < 10 then 48 + d else 55 + d
  {
  }

  /** Every size that is so written is read back, whatever extension follows. */
  lemma PrintedSizeIsRead(n: nat, digits: string, ext: string)
    requires digits == "0123456789abcdef" || digits == "0123456789ABCDEF"
    requires Plain(ext) && (ext != "" ==> Blank(ext[0]) || ext[0] == ';')
    ensures SizeLineOk(Hex(n, digits), ext, n) && ScanHex(Hex(n, digits) + ext) == n
  {
    HexIsRead(n, digits);
    ScanSize(Hex(n, digits), ext, n);
  }

  lemma {:induction false} HexIsRead(n: nat, digits: string)
    requires digits == "0123456789abcdef" || digits == "0123456789ABCDEF"
    ensures forall i :: 0 <= i < |Hex(n, digits)| ==> IsHex(Hex(n, digits)[i])
    ensures HexValue(Hex(n, digits)) == n
  {
    hide HexDigit, IsHex;
    DigitIsRead(n % 16, digits);
    if n < 16 {
      assert Hex(n, digits) == [digits[n]] && [digits[n]][..0] == "";
    } else {
      HexIsRead(n / 16, digits);
      var s := Hex(n / 16, digits) + [digits[n % 16]];
      assert Hex(n, digits) == s && s[..|s| - 1] == Hex(n / 16, digits);
    }
  }

  lemma {:induction false} TrimLeftPadded(a: string, b: string) returns (left: string)
    requires Blanks(a)
    requires b != "" && b[0] != ' '
    ensures TrimLeft(a + b) == left + b && Blanks(left) && (Spaces(a) <==> left == "")
  {
    if a != "" && a[0] == ' ' {
      assert (a + b)[1..] == a[1..] + b;
      left := TrimLeftPadded(a[1..], b);
    } else {
      left := a;
      assert a == "" ==> a + b == b;
    }
  }

  lemma {:induction false} TrimRightPadded(a: string, b: string) returns (right: string)
    requires Blanks(b)
    requires a != "" && a[|a| - 1] != ' '
    ensures TrimRight(a + b) == a + right && Blanks(right) && (Spaces(b) <==> right == "")
  {
    if b != "" && b[|b| - 1] == ' ' {
      assert (a + b)[..|a + b| - 1] == a + b[..|b| - 1];
      right := TrimRightPadded(a, b[..|b| - 1]);
    } else {
      right := b;
      assert b == "" ==> a + b == a;
    }
  }

  /** Trimming a padded value leaves the value, and no more than tabs and spaces around it. */
  lemma TrimPadded(before: string, value: string, after: string) returns (left: string, right: string)
    requires Blanks(before) && Blanks(after)
    requires value != "" && !Blank(value[0]) && !Blank(value[|value| - 1])
    ensures Trim(before + value + after) == left + value + right && Blanks(left) && Blanks(right)
    ensures Spaces(before) && Spaces(after) <==> left == "" && right == ""
  {
    assert before + value + after == before + (value + after);
    left := TrimLeftPadded(before, value + after);
    assert left + (value + after) == (left + value) + after;
    right := TrimRightPadded(left + value, after);
  }

  lemma TrimBlanks(s: string)
    requires Blanks(s)
    ensures Blanks(Trim(s))
  {
    TrimLeftBlanks(s);
    TrimRightBlanks(TrimLeft(s));
  }

  lemma {:induction false} TrimLeftBlanks(s: string)
    requires Blanks(s)
    ensures Blanks(TrimLeft(s))
  {
    if s != "" && s[0] == ' ' { TrimLeftBlanks(s[1..]); }
  }

  lemma {:induction false} TrimRightBlanks(s: string)
    requires Blanks(s)
    ensures Blanks(TrimRight(s))
  {
    if s != "" && s[|s| - 1] == ' ' { TrimRightBlanks(s[..|s| - 1]); }
  }

  lemma {:induction false} AtoiPadded(left: string, value: string, right: string)
    requires Blanks(left) && Blanks(right) && AllDigits(value)
    ensures Atoi(left + value + right) == Value(value)
  {
    var s := left + value + right;
    if left != "" {
      assert s[1..] == left[1..] + value + right;
      AtoiPadded(left[1..], value, right);
    } else {
      assert s == value + right && s[..|value|] == value;
      assert IsDigit(s[0]);
      assert forall i :: 0 <= i < |value| ==> s[i] == value[i] && IsDigit(value[i]);
      assert |value| < |s| ==> s[|value|] == right[0] && Blank(right[0]);
      assert DigitRun(s) == |value|;
    }
  }

  /** atoi over a padded Content-Length reads its number. */
  lemma LengthIsRead(f: Field)
    requires FieldOk(f) && AllDigits(f.value)
    ensures Atoi(Trim(f.before + f.value + f.after)) == Value(f.value)
  {
    assert IsDigit(f.value[0]) && IsDigit(f.value[|f.value| - 1]);
    var left, right := TrimPadded(f.before, f.value, f.after);
    AtoiPadded(left, f.value, right);
  }

  lemma NameIsTrimmed(name: string)
    requires ' ' !in name
    ensures Trim(name) == name
  {
    if name != "" { assert name[0] in name && name[|name| - 1] in name; }
  }

  lemma ThreeDigits(code: nat)
    requires 100 <= code <= 999
    ensures |Decimal(code)| == 3 && Atoi(Decimal(code)) == code
  {
    assert Decimal(code) == Decimal(code / 10) + [Digit(code % 10)];
    assert Decimal(code / 10) == Decimal(code / 100) + [Digit(code / 10 % 10)];
    ValueOfDecimal(code);
    AtoiPadded("", Decimal(code), "");
    assert "" + Decimal(code) + "" == Decimal(code);
  }

  // ----- a file on flash ------------------------------------------------------------------

  predicate Within(i: int, at: int, n: nat) { at <= i < at + n }

  /** A file as the bytes at its offsets, after one write. */
  function Written(file: map<int, char>, at: int, data: string): map<int, char> {
    file + map i | at <= i < at + |data| && Within(i, at, |data|) :: data[i - at]
  }

  /** Byte by byte: the data where it was written, and the file everywhere else. */
  lemma WrittenAt(file: map<int, char>, at: int, data: string, i: int)
    ensures i in Written(file, at, data) <==> i in file || at <= i < at + |data|
    ensures at <= i < at + |data| ==> Written(file, at, data)[i] == data[i - at]
    ensures i in file && !(at <= i < at + |data|) ==> Written(file, at, data)[i] == file[i]
  {
  }

  lemma WrittenTwice(file: map<int, char>, at: int, a: string, b: string)
    ensures Written(Written(file, at, a), at + |a|, b) == Written(file, at, a + b)
  {
  }

  lemma WrittenNothing(file: map<int, char>, at: int)
    ensures Written(file, at, "") == file
  {
  }

  /** Writing the next part of a body extends the written prefix. */
  lemma WrittenFurther(file: map<int, char>, at: int, body: string, m: nat, n: nat, part: string)
    requires m <= n <= |body| && part == body[m..n]
    ensures Written(Written(file, at, body[..m]), at + m, part) == Written(file, at, body[..n])
  {
    hide Written;
    WrittenTwice(file, at, body[..m], part);
    assert body[..m] + part == body[..n];
  }
}
