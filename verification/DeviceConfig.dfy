/** mqttcfg.dat: rendered by the service when a device is provisioned, read in place by the
    firmware at boot, and the MQTT settings that follow from it. */
module DeviceConfig {
  import opened Common
  import opened Text
  import Topics

  const CFG_BUFFER := 512

  datatype Config = Config(server: string, port: string, ssl: int, merchant: string, user: string, pass: string)

  const DEFAULTS := Config("192.168.137.1", "18883", 1, "", "", "")

  // ----- the service's side ---------------------------------------------------------------

  function Username(merchant: string, sn: string): string {
    merchant + "-" + sn
  }

  function Line(key: string, val: string): string {
    key + "=" + val + "\n"
  }

  type Field = (string, string)

  /** One key=value per line. */
  function Rendered(fields: seq<Field>): string {
    if fields == [] then "" else Line(fields[0].0, fields[0].1) + Rendered(fields[1..])
  }

  function Fields(server: string, port: string, merchant: string, user: string, pass: string): seq<Field> {
    [("server", server), ("port", port), ("ssl", "1"), ("merchant", merchant), ("user", user), ("pass", pass)]
  }

  function RenderConfig(server: string, port: string, merchant: string, user: string, pass: string): string {
    Rendered(Fields(server, port, merchant, user, pass))
  }

  // ----- what one file means to the firmware ----------------------------------------------

  predicate Eol(c: char) { c == '\r' || c == '\n' }

  predicate Blank(c: char) { c == ' ' || c == '\t' }

  /** strpbrk(s, "\r\n"), or the end. */
  function EolIndex(s: string): (i: nat)
    ensures i <= |s|
    ensures i < |s| ==> Eol(s[i])
    ensures forall k :: 0 <= k < i ==> !Eol(s[k])
  {
    if s == "" || Eol(s[0]) then 0 else EolIndex(s[1..]) + 1
  }

  /** How many characters a skipping loop passes over. */
  function EolRun(s: string): (i: nat)
    ensures i <= |s| && (i < |s| ==> !Eol(s[i]))
    ensures forall k :: 0 <= k < i ==> Eol(s[k])
  {
    if s != "" && Eol(s[0]) then EolRun(s[1..]) + 1 else 0
  }

  function BlankRun(s: string): (i: nat)
    ensures i <= |s| && (i < |s| ==> !Blank(s[i]))
    ensures forall k :: 0 <= k < i ==> Blank(s[k])
  {
    if s != "" && Blank(s[0]) then BlankRun(s[1..]) + 1 else 0
  }

  function SkipEols(s: string): string { s[EolRun(s)..] }

  function SkipBlanks(s: string): string { s[BlankRun(s)..] }

  function TrimEnd(s: string): (r: string)
    ensures |r| <= |s| && r == s[..|r|]
  {
    if s != "" && Blank(s[|s| - 1]) then TrimEnd(s[..|s| - 1]) else s
  }

  /** One key and its value, cut to the field's buffer; unknown keys are ignored. */
  function ApplyCfgLine(c: Config, key: string, val: string): Config {
    if key == "server" then c.(server := Topics.Printed(val, 128))
    else if key == "port" then c.(port := Topics.Printed(val, 8))
    else if key == "ssl" then c.(ssl := Atoi(val))
    else if key == "merchant" then c.(merchant := Topics.Printed(val, 32))
    else if key == "user" then c.(user := Topics.Printed(val, 64))
    else if key == "pass" then c.(pass := Topics.Printed(val, 64))
    else c
  }

  function ApplyText(c: Config, line: string): Config {
    var l := SkipBlanks(line);
    var eq := IndexOf(l, '=');
    if eq == |l| then c else ApplyCfgLine(c, l[..eq], TrimEnd(l[eq + 1..]))
  }

  /** The whole text, line by line. */
  function ReadText(c: Config, text: string): Config
    decreases |text|
  {
    if text == "" then c
    else
      var i := EolIndex(text);
      var n := ApplyText(c, text[..i]);
      if i == |text| then n else ReadText(n, SkipEols(text[i..]))
  }

  predicate StartsWithBom(s: string) {
    |s| >= 3 && s[0] as int == 0xEF && s[1] as int == 0xBB && s[2] as int == 0xBF
  }

  /** What the firmware sees of a file: 512 bytes at most, up to a NUL, without a leading BOM. */
  function Visible(file: string): string {
    var cut := if |file| > CFG_BUFFER then file[..CFG_BUFFER] else file;
    var s := cut[..IndexOf(cut, '\0')];
    if StartsWithBom(s) then s[3..] else s
  }

  predicate SpacesOrTabs(s: string) { forall i :: 0 <= i < |s| ==> s[i] == ' ' || s[i] == '\t' }

  /** Spaces and tabs before a key and behind a value do not matter. */
  lemma BlanksDoNotMatter(c: Config, before: string, key: string, val: string, after: string)
    requires SpacesOrTabs(before) && SpacesOrTabs(after)
    requires key != "" && key[0] != ' ' && key[0] != '\t' && '=' !in key
    requires val != "" ==> val[|val| - 1] != ' ' && val[|val| - 1] != '\t'
    ensures ApplyText(c, before + (key + ['='] + (val + after))) == ApplyCfgLine(c, key, val)
  {
    hide ApplyCfgLine, SkipBlanks, TrimEnd, IndexOf, SpacesOrTabs;
    var l := key + ['='] + (val + after);
    assert l[0] == key[0];
    assert before + (key + ['='] + (val + after)) == before + l;
    SkipsBlanks(before, l);
    IndexOfFirst(key, '=', val + after);
    assert l[..|key|] == key && l[|key| + 1..] == val + after;
    TrimsBlanks(val, after);
  }

  lemma {:induction false} SkipsBlanks(before: string, l: string)
    requires SpacesOrTabs(before) && l != "" && l[0] != ' ' && l[0] != '\t'
    ensures SkipBlanks(before + l) == l
  {
    if before == "" {
      assert before + l == l;
    } else {
      assert (before + l)[1..] == before[1..] + l;
      SkipsBlanks(before[1..], l);
    }
  }

  lemma {:induction false} TrimsBlanks(val: string, after: string)
    requires SpacesOrTabs(after)
    requires val != "" ==> val[|val| - 1] != ' ' && val[|val| - 1] != '\t'
    ensures TrimEnd(val + after) == val
  {
    if after == "" {
      assert val + after == val;
    } else {
      var last := after[|after| - 1];
      assert (val + after)[|val + after| - 1] == last;
      assert (val + after)[..|val + after| - 1] == val + after[..|after| - 1];
      TrimsBlanks(val, after[..|after| - 1]);
    }
  }

  /** Lines may end in LF, CR or both. */
  lemma EndsOfLines(c: Config, line: string, end: string, rest: string)
    requires '\r' !in line && '\n' !in line && end in {"\n", "\r", "\r\n"}
    requires rest != "" ==> rest[0] != '\r' && rest[0] != '\n'
    ensures ReadText(c, line + end + rest) == ReadText(ApplyText(c, line), rest)
  {
    hide ApplyText;
    var text := line + end + rest;
    assert forall k :: 0 <= k < |line| ==> text[k] == line[k] && line[k] in line;
    assert text[|line|] == end[0] && Eol(end[0]);
    assert EolIndex(text) == |line| && text[..|line|] == line && text[|line|..] == end + rest;
    SkipsEnd(end, rest);
  }

  lemma SkipsEnd(end: string, rest: string)
    requires end in {"\n", "\r", "\r\n"} && (rest != "" ==> rest[0] != '\r' && rest[0] != '\n')
    ensures SkipEols(end + rest) == rest
  {
    var s := end + rest;
    assert forall k :: 0 <= k < |end| ==> s[k] == end[k] && Eol(end[k]);
    assert rest != "" ==> s[|end|] == rest[0];
    assert EolRun(s) == |end|;
  }

  /** Of a file without a NUL or a byte-order mark the first 512 bytes are seen, and no more. */
  lemma FrontIsVisible(file: string)
    requires '\0' !in file && !StartsWithBom(file)
    ensures Visible(file) == if |file| <= 512 then file else file[..512]
  {
  }

  // ----- the firmware's reader ------------------------------------------------------------

  /** A C string with content s lies at position at of buffer b. */
  predicate Holds(b: seq<char>, at: int, s: string) {
    0 <= at && at + |s| < |b| && b[at..at + |s|] == s && b[at + |s|] == '\0' && '\0' !in s
  }

  lemma HoldsStart(b: seq<char>, at: int, s: string)
    requires Holds(b, at, s)
    ensures at >= 0
  {
  }

  lemma HoldsTail(b: seq<char>, at: int, s: string, k: nat)
    requires Holds(b, at, s) && k <= |s|
    ensures Holds(b, at + k, s[k..])
  {
    assert b[at + k..at + |s|] == b[at..at + |s|][k..];
  }

  /** Writing a NUL inside a string cuts it there. */
  lemma HoldsCut(b: seq<char>, at: int, s: string, k: nat)
    requires Holds(b, at, s) && k <= |s|
    ensures Holds(b[at + k := '\0'], at, s[..k])
  {
    var c := b[at + k := '\0'];
    assert c[at..at + k] == b[at..at + |s|][..k];
  }

  /** Writes below a string leave it alone. */
  lemma HoldsBelow(b: seq<char>, c: seq<char>, at: int, s: string)
    requires Holds(b, at, s) && |c| == |b|
    requires forall i :: at <= i < |b| ==> c[i] == b[i]
    ensures Holds(c, at, s)
  {
    assert c[at..at + |s|] == b[at..at + |s|];
  }

  lemma HoldsAt(b: seq<char>, at: int, s: string)
    requires Holds(b, at, s)
    ensures forall k :: 0 <= k < |s| ==> b[at + k] == s[k] && s[k] != '\0'
  {
    forall k | 0 <= k < |s| ensures b[at + k] == s[k] && s[k] != '\0' {
      assert b[at..at + |s|][k] == s[k];
      assert s[k] in s;
    }
  }

  // the string functions of the C library the reader uses, on strings in a buffer

  method Strlen(buf: array<char>, at: int, ghost s: string) returns (end: int)
    requires Holds(buf[..], at, s)
    ensures end == at + |s|
  {
    HoldsAt(buf[..], at, s);
    end := at;
    while buf[end] != '\0'
      invariant at <= end <= at + |s|
      decreases at + |s| - end
    {
      end := end + 1;
    }
  }

  method ReadCString(buf: array<char>, at: int, ghost s: string) returns (r: string)
    requires Holds(buf[..], at, s)
    ensures r == s
  {
    var end := Strlen(buf, at, s);
    r := buf[at..end];
    assert buf[..][at..at + |s|] == buf[at..end];
  }

  method Strchr(buf: array<char>, at: int, c: char, ghost s: string) returns (i: int)
    requires Holds(buf[..], at, s) && c != '\0'
    ensures i == (if IndexOf(s, c) < |s| then at + IndexOf(s, c) else -1)
  {
    HoldsAt(buf[..], at, s);
    i := at;
    while buf[i] != '\0' && buf[i] != c
      invariant at <= i <= at + IndexOf(s, c)
      decreases at + |s| - i
    {
      i := i + 1;
    }
    if buf[i] == '\0' { i := -1; }
  }

  method StrpbrkEol(buf: array<char>, at: int, ghost s: string) returns (i: int)
    requires Holds(buf[..], at, s)
    ensures i == (if EolIndex(s) < |s| then at + EolIndex(s) else -1)
  {
    HoldsAt(buf[..], at, s);
    i := at;
    while buf[i] != '\0' && !Eol(buf[i])
      invariant at <= i <= at + EolIndex(s)
      decreases at + |s| - i
    {
      i := i + 1;
    }
    if buf[i] == '\0' { i := -1; }
  }

  /** Cuts a string in two by writing a NUL inside it. */
  method Cut(buf: array<char>, at: int, k: nat, ghost s: string)
    requires Holds(buf[..], at, s) && k < |s|
    modifies buf
    ensures Holds(buf[..], at, s[..k]) && Holds(buf[..], at + k + 1, s[k + 1..])
    ensures forall i :: 0 <= i < buf.Length && i != at + k ==> buf[i] == old(buf[i])
  {
    ghost var before := buf[..];
    HoldsCut(before, at, s, k);
    HoldsTail(before, at, s, k + 1);
    buf[at + k] := '\0';
    assert buf[..] == before[at + k := '\0'];
    HoldsBelow(before, buf[..], at + k + 1, s[k + 1..]);
  }

  method SkipEolsAt(buf: array<char>, at: int, ghost s: string) returns (next: int)
    requires Holds(buf[..], at, s)
    ensures next == at + EolRun(s) && Holds(buf[..], next, SkipEols(s))
  {
    HoldsAt(buf[..], at, s);
    HoldsTail(buf[..], at, s, EolRun(s));
    next := at;
    while Eol(buf[next])
      invariant at <= next <= at + EolRun(s)
      decreases at + |s| - next
    {
      next := next + 1;
    }
  }

  method SkipBlanksAt(buf: array<char>, at: int, ghost s: string) returns (next: int)
    requires Holds(buf[..], at, s)
    ensures next == at + BlankRun(s) && Holds(buf[..], next, SkipBlanks(s))
  {
    HoldsAt(buf[..], at, s);
    HoldsTail(buf[..], at, s, BlankRun(s));
    next := at;
    while Blank(buf[next])
      invariant at <= next <= at + BlankRun(s)
      decreases at + |s| - next
    {
      next := next + 1;
    }
  }

  /** Overwrites trailing blanks with NULs. */
  method TrimEndAt(buf: array<char>, at: int, ghost s: string)
    requires Holds(buf[..], at, s)
    modifies buf
    ensures Holds(buf[..], at, TrimEnd(s))
    ensures forall i :: 0 <= i < buf.Length && !(at <= i < at + |s|) ==> buf[i] == old(buf[i])
  {
    var end := Strlen(buf, at, s);
    ghost var val := s;
    HoldsAt(buf[..], at, s);
    while end > at && Blank(buf[end - 1])
      invariant end == at + |val| && |val| <= |s| && Holds(buf[..], at, val) && TrimEnd(val) == TrimEnd(s)
      invariant forall i :: 0 <= i < buf.Length && !(at <= i < at + |s|) ==> buf[i] == old(buf[i])
      decreases end
    {
      HoldsAt(buf[..], at, val);
      Cut(buf, at, end - 1 - at, val);
      end, val := end - 1, val[..|val| - 1];
    }
    HoldsAt(buf[..], at, val);
  }

  lemma SkipAfterEol(s: string, rest: string)
    requires s != "" && Eol(s[0]) && rest == s[1..]
    ensures SkipEols(s) == SkipEols(rest)
  {
  }

  class Firmware {
    const sn: string
    var cfg: Config
    var deviceTopic: string
    var requestTopic: string
    var clientId: string

    constructor (sn: string)
      ensures this.sn == sn
    {
      this.sn := sn;
      cfg, deviceTopic, requestTopic, clientId := DEFAULTS, "", "", "";
    }

    /** Ends the line at its CR or LF and finds the next one; -1 when this was the last. */
    method CutLine(buf: array<char>, line: int, ghost text: string) returns (next: int)
      requires Holds(buf[..], line, text)
      modifies buf
      ensures Holds(buf[..], line, text[..EolIndex(text)])
      ensures EolIndex(text) == |text| <==> next == -1
      ensures next != -1 ==> next > line + EolIndex(text) && Holds(buf[..], next, SkipEols(text[EolIndex(text)..]))
    {
      hide Holds, EolRun, SkipEols;
      HoldsStart(buf[..], line, text);
      next := StrpbrkEol(buf, line, text);
      ghost var e := EolIndex(text);
      if next == -1 {
        assert text[..e] == text;
      } else {
        assert next - line == e;
        Cut(buf, line, next - line, text);
        SkipAfterEol(text[e..], text[e + 1..]);
        next := SkipEolsAt(buf, next + 1, text[e + 1..]);
      }
    }

    /** Trims one line in place, splits it at '=' and stores its value. */
    method UseLine(buf: array<char>, start: int, ghost text: string)
      requires Holds(buf[..], start, text)
      modifies buf, this`cfg
      ensures cfg == ApplyText(old(cfg), text)
      ensures forall i :: 0 <= i < buf.Length && !(start <= i <= start + |text|) ==> buf[i] == old(buf[i])
    {
      var line := SkipBlanksAt(buf, start, text);
      ghost var l := SkipBlanks(text);
      var eq := Strchr(buf, line, '=', l);
      if eq != -1 {
        var key, val := KeyAndValue(buf, line, eq, l);
        cfg := ApplyCfgLine(cfg, key, val);
      }
    }

    static method KeyAndValue(buf: array<char>, line: int, eq: int, ghost l: string) returns (key: string, val: string)
      requires Holds(buf[..], line, l) && IndexOf(l, '=') < |l| && eq == line + IndexOf(l, '=')
      modifies buf
      ensures key == l[..IndexOf(l, '=')] && val == TrimEnd(l[IndexOf(l, '=') + 1..])
      ensures forall i :: 0 <= i < buf.Length && !(line <= i <= line + |l|) ==> buf[i] == old(buf[i])
    {
      ghost var k := IndexOf(l, '=');
      ghost var head, tail := l[..k], l[k + 1..];
      Cut(buf, line, eq - line, l);
      key := ReadCString(buf, line, head);
      val := TrimmedAt(buf, eq + 1, tail);
    }

    static method TrimmedAt(buf: array<char>, at: int, ghost s: string) returns (r: string)
      requires Holds(buf[..], at, s)
      modifies buf
      ensures r == TrimEnd(s)
      ensures forall i :: 0 <= i < buf.Length && !(at <= i < at + |s|) ==> buf[i] == old(buf[i])
    {
      TrimEndAt(buf, at, s);
      r := ReadCString(buf, at, TrimEnd(s));
    }

    /** Walks the buffer line by line. */
    method ReadLines(buf: array<char>, start: int, ghost whole: string)
      requires Holds(buf[..], start, whole)
      modifies buf, this`cfg
      ensures cfg == ReadText(old(cfg), whole)
    {
      var line := start;
      ghost var text := whole;
      while line != -1 && buf[line] != '\0'
        invariant line != -1 ==> Holds(buf[..], line, text)
        invariant ReadText(old(cfg), whole) == if line == -1 then cfg else ReadText(cfg, text)
        decreases if line == -1 then 0 else |text| + 1
      {
        HoldsAt(buf[..], line, text);
        ghost var e := EolIndex(text);
        var next := CutLine(buf, line, text);
        ghost var cutBuf := buf[..];
        UseLine(buf, line, text[..e]);
        if next != -1 {
          HoldsBelow(cutBuf, buf[..], next, SkipEols(text[e..]));
          text := SkipEols(text[e..]);
        }
        line := next;
      }
      if line != -1 { HoldsAt(buf[..], line, text); }
    }

    /** Loads the file into a 513-byte buffer and applies it line by line. */
    method ReadMqttCfg(file: Option<string>) returns (ret: int)
      modifies this`cfg
      ensures file.None? ==> ret == -1 && cfg == old(cfg)
      ensures file.Some? ==> ret == 0 && cfg == ReadText(old(cfg), Visible(file.value))
    {
      if file.None? { return -1; }
      ret := 0;
      var cut := if |file.value| > CFG_BUFFER then file.value[..CFG_BUFFER] else file.value;
      var buf := new char[CFG_BUFFER + 1](i => if 0 <= i < |cut| then cut[i] else '\0');
      ghost var text := cut[..IndexOf(cut, '\0')];
      assert buf[..][0..|text|] == text;
      HoldsAt(buf[..], 0, text);
      if buf[0] as int == 0xEF && buf[1] as int == 0xBB && buf[2] as int == 0xBF {
        HoldsTail(buf[..], 0, text, 3);
        ReadLines(buf, 3, text[3..]);
      } else {
        ReadLines(buf, 0, text);
      }
    }

    /** Defaults, then the file, then the names derived from it. */
    method ApplyMqttParam(file: Option<string>)
      modifies this
      ensures cfg == if file.None? then DEFAULTS else ReadText(DEFAULTS, Visible(file.value))
      ensures file.None? ==> cfg == Config("192.168.137.1", "18883", 1, "", "", "")
      ensures deviceTopic == Topics.Printed(Topics.DeviceTopic(cfg.merchant, sn), 96)
      ensures requestTopic == Topics.Printed(Topics.DeviceRequestTopic(cfg.merchant, sn), 96)
      ensures clientId == Topics.Printed("clientId-" + sn, 32)
    {
      cfg := DEFAULTS;
      var _ := ReadMqttCfg(file);
      deviceTopic := Topics.Printed("topic/" + cfg.merchant + "/" + sn, 96);
      requestTopic := Topics.Printed("qris/request/" + cfg.merchant + "/" + sn, 96);
      clientId := Topics.Printed("clientId-" + sn, 32);
    }
  }

  /** Each value arrives uncut exactly if it fits its buffer with a NUL; a key that is none of the six changes
      nothing. */
  lemma ValuesThatFit(c: Config, key: string, val: string)
    ensures ApplyCfgLine(c, "server", val) == c.(server := val) <==> |val| <= 127
    ensures ApplyCfgLine(c, "port", val) == c.(port := val) <==> |val| <= 7
    ensures ApplyCfgLine(c, "merchant", val) == c.(merchant := val) <==> |val| <= 31
    ensures ApplyCfgLine(c, "user", val) == c.(user := val) <==> |val| <= 63
    ensures ApplyCfgLine(c, "pass", val) == c.(pass := val) <==> |val| <= 63
    ensures key !in {"server", "port", "ssl", "merchant", "user", "pass"} ==> ApplyCfgLine(c, key, val) == c
  {
  }

  // ----- round trip -----------------------------------------------------------------------

  /** Free of line ends and NULs, and not ending in a blank. */
  predicate PlainValue(s: string) {
    && (forall i :: 0 <= i < |s| ==> !Eol(s[i]) && s[i] != '\0')
    && (s != "" ==> !Blank(s[|s| - 1]))
  }

  predicate PlainKey(s: string) {
    s != "" && forall i :: 0 <= i < |s| ==> 'a' <= s[i] <= 'z'
  }

  lemma AlphanumericIsPlain(s: string)
    requires Alphanumeric(s)
    ensures PlainValue(s)
  {
  }

  lemma LineEnds(key: string, val: string, rest: string)
    requires PlainKey(key) && PlainValue(val)
    ensures var text, line := Line(key, val) + rest, key + "=" + val;
            EolIndex(text) == |line| && text[..|line|] == line && text[|line|..] == "\n" + rest
  {
    var text, line := Line(key, val) + rest, key + "=" + val;
    assert text == line + "\n" + rest;
    assert Eol(text[|line|]);
    forall i | 0 <= i < |line| ensures !Eol(text[i]) {
      if i < |key| { assert text[i] == key[i]; }
      else if i > |key| { assert text[i] == val[i - |key| - 1]; }
    }
  }

  lemma NextLine(rest: string)
    requires rest == "" || !Eol(rest[0])
    ensures SkipEols("\n" + rest) == rest
  {
    assert ("\n" + rest)[1..] == rest;
    assert EolRun("\n" + rest) == EolRun(rest) + 1 == 1;
  }

  lemma LineApplies(c: Config, key: string, val: string)
    requires PlainKey(key) && PlainValue(val)
    ensures ApplyText(c, key + "=" + val) == ApplyCfgLine(c, key, val)
  {
    hide ApplyCfgLine;
    var line := key + "=" + val;
    assert BlankRun(line) == 0 by { assert line[0] == key[0]; }
    assert SkipBlanks(line) == line;
    assert '=' !in key;
    IndexOfFirst(key, '=', val);
    assert line == key + ['='] + val;
    assert line[..|key|] == key && line[|key| + 1..] == val;
    assert TrimEnd(val) == val;
  }

  /** One rendered line is read back as its key and value, and reading goes on behind it. */
  lemma ReadLine(c: Config, key: string, val: string, rest: string)
    requires PlainKey(key) && PlainValue(val) && (rest == "" || !Eol(rest[0]))
    ensures ReadText(c, Line(key, val) + rest) == ReadText(ApplyCfgLine(c, key, val), rest)
  {
    hide ApplyText, ApplyCfgLine, EolIndex, SkipEols, Line, PlainKey, PlainValue;
    LineEnds(key, val, rest);
    NextLine(rest);
    LineApplies(c, key, val);
  }

  predicate PlainFields(fields: seq<Field>) {
    forall i :: 0 <= i < |fields| ==> PlainKey(fields[i].0) && PlainValue(fields[i].1)
  }

  function ApplyFields(c: Config, fields: seq<Field>): Config
    decreases |fields|
  {
    if fields == [] then c else ApplyFields(ApplyCfgLine(c, fields[0].0, fields[0].1), fields[1..])
  }

  /** Any list of plain fields is read back field by field. */
  lemma {:induction false} ReadRendered(c: Config, fields: seq<Field>)
    requires PlainFields(fields)
    ensures ReadText(c, Rendered(fields)) == ApplyFields(c, fields)
    ensures '\0' !in Rendered(fields)
    ensures fields != [] ==> Rendered(fields) != "" && Rendered(fields)[0] == fields[0].0[0]
    decreases |fields|
  {
    if fields != [] {
      var key, val := fields[0].0, fields[0].1;
      ReadRendered(ApplyCfgLine(c, key, val), fields[1..]);
      if |fields| > 1 { assert PlainKey(fields[1].0); }
      ReadLine(c, key, val, Rendered(fields[1..]));
    }
  }

  lemma VisibleWhole(file: string)
    requires |file| <= CFG_BUFFER && '\0' !in file && file != "" && 'a' <= file[0] <= 'z'
    ensures Visible(file) == file
  {
    assert IndexOf(file, '\0') == |file|;
    assert file[..|file|] == file;
  }

  function RenderedLength(fields: seq<Field>): nat {
    if fields == [] then 0 else |fields[0].0| + |fields[0].1| + 2 + RenderedLength(fields[1..])
  }

  lemma {:induction false} LengthOfRendered(fields: seq<Field>)
    ensures |Rendered(fields)| == RenderedLength(fields)
  {
    if fields != [] { LengthOfRendered(fields[1..]); }
  }

  lemma OneIsOne()
    ensures Atoi("1") == 1
  {
    AtoiOfDigits("1");
    assert "1"[..0] == "" && Value("1") == 1;
  }

  /** The six fields of a rendered file, applied to the defaults, and its length. */
  lemma ApplySix(server: string, port: string, merchant: string, user: string, pass: string)
    ensures ApplyFields(DEFAULTS, Fields(server, port, merchant, user, pass))
            == Config(Topics.Printed(server, 128), Topics.Printed(port, 8), 1, Topics.Printed(merchant, 32),
                      Topics.Printed(user, 64), Topics.Printed(pass, 64))
    ensures RenderedLength(Fields(server, port, merchant, user, pass))
            == |server| + |port| + |merchant| + |user| + |pass| + 42
  {
    var f := Fields(server, port, merchant, user, pass);
    var f1, f2, f3, f4, f5 := f[1..], f[2..], f[3..], f[4..], f[5..];
    assert f1[1..] == f2 && f2[1..] == f3 && f3[1..] == f4 && f4[1..] == f5 && f5[1..] == [];
    assert Atoi("1") == 1 by { OneIsOne(); }
    assert RenderedLength(f5) == |pass| + 6 && RenderedLength(f4) == |user| + |pass| + 12;
    assert RenderedLength(f3) == |merchant| + |user| + |pass| + 22;
    assert RenderedLength(f2) == |merchant| + |user| + |pass| + 28;
    assert RenderedLength(f1) == |port| + |merchant| + |user| + |pass| + 34;
    var c1 := ApplyCfgLine(DEFAULTS, "server", server);
    var c2 := ApplyCfgLine(c1, "port", port);
    var c3 := ApplyCfgLine(c2, "ssl", "1");
    var c4 := ApplyCfgLine(c3, "merchant", merchant);
    var c5 := ApplyCfgLine(c4, "user", user);
    assert ApplyFields(c5, f5) == ApplyCfgLine(c5, "pass", pass);
    assert ApplyFields(c4, f4) == ApplyFields(c5, f5) && ApplyFields(c3, f3) == ApplyFields(c4, f4);
    assert ApplyFields(c2, f2) == ApplyFields(c3, f3) && ApplyFields(c1, f1) == ApplyFields(c2, f2);
  }

  /** The rendered file is seen whole and gives back every value uncut. */
  lemma ConfigRoundTrip(server: string, port: string, merchant: string, sn: string, pass: string)
    requires PlainValue(server) && |server| < 128 && PlainValue(port) && |port| < 8
    requires Topics.ValidId(merchant, Topics.MAX_MERCHANT_ID) && Topics.ValidId(sn, Topics.MAX_SN)
    requires Alphanumeric(pass) && |pass| < 64
    ensures var file := RenderConfig(server, port, merchant, Username(merchant, sn), pass);
            && |file| <= CFG_BUFFER
            && ReadText(DEFAULTS, Visible(file)) == Config(server, port, 1, merchant, Username(merchant, sn), pass)
  {
    hide ReadText, Visible, ApplyFields, Rendered, RenderedLength, PlainValue, PlainKey, Alphanumeric;
    var user := Username(merchant, sn);
    AlphanumericIsPlain(merchant);
    AlphanumericIsPlain(pass);
    UsernameIsPlain(merchant, sn);
    KeysArePlain();
    var fields := Fields(server, port, merchant, user, pass);
    ReadRendered(DEFAULTS, fields);
    ApplySix(server, port, merchant, user, pass);
    LengthOfRendered(fields);
    VisibleWhole(Rendered(fields));
  }

  lemma UsernameIsPlain(merchant: string, sn: string)
    requires Alphanumeric(merchant) && Alphanumeric(sn) && sn != ""
    ensures PlainValue(Username(merchant, sn))
  {
    var user := Username(merchant, sn);
    assert user[|user| - 1] == sn[|sn| - 1];
    AlphanumericIsPlain(merchant);
    AlphanumericIsPlain(sn);
  }

  lemma KeysArePlain()
    ensures PlainKey("server") && PlainKey("port") && PlainKey("ssl") && PlainKey("merchant") && PlainKey("user")
            && PlainKey("pass")
    ensures PlainValue("1")
  {
  }

  /** The two programs agree on the topics, and neither is cut by the firmware's buffers. */
  lemma TopicsAgree(merchant: string, sn: string)
    requires Topics.ValidId(merchant, Topics.MAX_MERCHANT_ID) && Topics.ValidId(sn, Topics.MAX_SN)
    ensures Topics.Printed(Topics.DeviceTopic(merchant, sn), 96) == Topics.DeviceTopic(merchant, sn)
    ensures Topics.Printed(Topics.DeviceRequestTopic(merchant, sn), 96) == Topics.DeviceRequestTopic(merchant, sn)
  {
  }

  /** The client ID survives its 32-byte buffer exactly for serial numbers of at most 22
      characters; longer ones that share those 22 characters share the client ID. */
  lemma ClientIdFits(sn: string, other: string)
    ensures Topics.Printed("clientId-" + sn, 32) == "clientId-" + sn <==> |sn| <= 22
    ensures |sn| > 22 && |other| > 22 && sn[..22] == other[..22] ==>
              Topics.Printed("clientId-" + sn, 32) == Topics.Printed("clientId-" + other, 32)
  {
    if |sn| > 22 { assert ("clientId-" + sn)[..31] == "clientId-" + sn[..22]; }
    if |other| > 22 { assert ("clientId-" + other)[..31] == "clientId-" + other[..22]; }
  }

  /** A freshly provisioned device boots with the login it was given and prints the service's topics for it. */
  method Boot(server: string, port: string, merchant: string, sn: string, pass: string) returns (f: Firmware)
    requires PlainValue(server) && |server| < 128 && PlainValue(port) && |port| < 8
    requires Topics.ValidId(merchant, Topics.MAX_MERCHANT_ID) && Topics.ValidId(sn, Topics.MAX_SN)
    requires Alphanumeric(pass) && |pass| < 64
    ensures f.cfg == Config(server, port, 1, merchant, Username(merchant, sn), pass)
    ensures f.deviceTopic == Topics.DeviceTopic(merchant, sn)
            && f.requestTopic == Topics.DeviceRequestTopic(merchant, sn)
  {
    f := new Firmware(sn);
    ConfigRoundTrip(server, port, merchant, sn, pass);
    TopicsAgree(merchant, sn);
    f.ApplyMqttParam(Some(RenderConfig(server, port, merchant, Username(merchant, sn), pass)));
  }
}
