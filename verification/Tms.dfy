/** The firmware's update downloader: files fetched piece by piece, with an offset and a running hash
    saved on flash after every piece, through failing writes and power cuts. */
module Tms {
  import opened Common

  const MAX_FILES := 25
  const PIECE := 6000
  const E_STATUS := 2
  const E_SEND := 6
  const E_RESOLVE := 8
  const E_RECV := 7
  const E_CONNECT := 5
  const E_WRITE := 13
  const E_MD5 := 14
  const E_SIZE := 25
  const OFF := -1
  const E_NOFILES := 28

  /** A file of an update job; `done` is STATUS_DLCOMPLETE. */
  datatype File = File(name: string, kind: string, version: string, md5: string, fsize: nat, startPosi: nat, done: bool)

  const BLANK := File("", "", "", "", 0, 0, false)

  /** TmsTrade: the update job, the file being downloaded, and the bytes its hash context has absorbed. */
  datatype Record = Record(files: seq<File>, fnum: nat, cur: nat, ctx: string)

  /** What survives a power cut: the files, and the last record saved. */
  datatype Disk = Disk(data: map<string, string>, saved: Option<Record>)

  /** A flash call is done, or fails, or the power goes; `part` says how much of it took effect. */
  datatype Fate = Done | Failed(part: nat) | PowerLost(part: nat)

  /** The outcome of one range request, repeated once when nothing came: an error, or a body, perhaps
      empty; the server may close the connection behind it, and reconnecting may fail. */
  datatype Reply = NotSent | NotReceived | NotResolved | BadStatus | Content(bytes: string, connected: bool)

  function ErrorCode(r: Reply): int {
    match r
    case NotSent => E_SEND
    case NotReceived => E_RECV
    case NotResolved => E_RESOLVE
    case BadStatus => E_STATUS
    case Content(_, connected) => if connected then 0 else E_CONNECT
  }

  function Path(f: File): string {
    "/ext/tms/" + f.name + if f.kind == "PF" then ".bak" else ""
  }

  function Stored(data: map<string, string>, f: File): string {
    if Path(f) in data then data[Path(f)] else ""
  }

  /** WriteFile_Api: bytes laid over a file from an offset inside it. */
  function Overlay(content: string, at: nat, bytes: string): (s: string)
    requires at <= |content|
    ensures |s| == if at + |bytes| > |content| then at + |bytes| else |content|
  {
    content[..at] + bytes + if at + |bytes| < |content| then content[at + |bytes|..] else ""
  }

  /** The buffer behind the header of a reply, which was zeroed before. */
  function Padded(bytes: string, n: nat): (s: string)
    ensures |s| == n && forall i :: 0 <= i < n ==> s[i] == if i < |bytes| then bytes[i] else '\0'
  {
    if |bytes| >= n then bytes[..n] else bytes + seq(n - |bytes|, _ => '\0')
  }

  // ----- what a record says about the flash -----------------------------------------------

  predicate TaskOk(files: seq<File>, fnum: nat) {
    && |files| == MAX_FILES && fnum < MAX_FILES
    && (forall i :: 0 <= i < fnum ==> files[i].fsize > 0)
    && (forall i :: fnum <= i < MAX_FILES ==> files[i] == BLANK)
    && (forall i, j :: 0 <= i < j < fnum ==> Path(files[i]) != Path(files[j]))
  }

  ghost predicate ElseSame(data: map<string, string>, now: map<string, string>, p: string) {
    forall q :: q != p ==> (q in data <==> q in now) && (q in data ==> data[q] == now[q])
  }

  /** All of the file is on flash, and its hash is the server's. */
  predicate Complete(md5: string -> string, data: map<string, string>, f: File) {
    f.done && f.startPosi == f.fsize && f.fsize <= |Stored(data, f)| && md5(Stored(data, f)[..f.fsize]) == f.md5
  }

  /** The file being downloaded: what was absorbed is what is on flash, up to startPosi. */
  predicate Partial(data: map<string, string>, f: File, ctx: string) {
    !f.done && f.startPosi < f.fsize
        && (f.startPosi > 0 ==> f.startPosi <= |Stored(data, f)| && ctx == Stored(data, f)[..f.startPosi])
  }

  predicate FileOk(md5: string -> string, r: Record, data: map<string, string>, i: nat)
    requires i < |r.files|
  {
    if i < r.cur then Complete(md5, data, r.files[i])
    else if i == r.cur then Partial(data, r.files[i], r.ctx)
    else !r.files[i].done && r.files[i].startPosi == 0
  }

  /** The record describes the flash: the files before cur, and only those, are complete. */
  predicate RecordOk(md5: string -> string, r: Record, data: map<string, string>) {
    TaskOk(r.files, r.fnum) && r.cur <= r.fnum && forall i :: 0 <= i < r.fnum ==> FileOk(md5, r, data, i)
  }

  predicate DiskOk(md5: string -> string, d: Disk) {
    d.saved.Some? ==> RecordOk(md5, d.saved.value, d.data)
  }

  /** The same update job, however far each has come. */
  predicate SameTask(a: Record, b: Record) {
    && a.fnum == b.fnum < |a.files| == |b.files| == MAX_FILES
    && forall i :: 0 <= i < MAX_FILES ==> SameFile(a.files[i], b.files[i])
  }

  predicate SameFile(a: File, b: File) { a.(startPosi := 0, done := false) == b.(startPosi := 0, done := false) }

  /** The saved record is of the same update job and not ahead of the one in memory. */
  predicate Behind(s: Record, t: Record) {
    && SameTask(s, t) && s.cur <= t.cur <= t.fnum
    && (s.cur == t.cur ==> s.files[s.cur].startPosi <= t.files[t.cur].startPosi)
  }

  predicate Inv(md5: string -> string, t: Record, d: Disk) {
    RecordOk(md5, t, d.data) && DiskOk(md5, d) && (d.saved.Some? ==> Behind(d.saved.value, t))
  }

  /** The saved record relies on bytes of the file being downloaded. */
  predicate Claimed(t: Record, saved: Option<Record>)
    requires t.cur < |t.files|
  {
    saved.Some? && saved.value.cur == t.cur && t.cur < |saved.value.files| && saved.value.files[t.cur].startPosi > 0
  }

  /** A task as the server's answer has just filled it in. */
  predicate Fresh(t: Record) {
    && TaskOk(t.files, t.fnum) && t.cur == 0
    && forall i :: 0 <= i < MAX_FILES ==> !t.files[i].done && t.files[i].startPosi == 0
  }

  predicate SameVersion(a: File, b: File) {
    a.name == b.name && a.kind == b.kind && a.version == b.version && a.fsize == b.fsize
  }

  predicate SameUpTo(t: Record, s: Record, n: nat)
    requires n <= |s.files| && n <= |t.files|
  {
    forall i :: 0 <= i < n ==> SameVersion(s.files[i], t.files[i])
  }

  /** The comparison of Tms_CompareVersions, which goes one entry past the last file and never looks at the MD5. */
  predicate SameVersions(t: Record, s: Record) {
    t.fnum == s.fnum < |s.files| == |t.files| && SameUpTo(t, s, s.fnum + 1)
  }

  /** The saved record relies on bytes of a file that is gone. */
  predicate Lost(d: Disk) {
    d.saved.Some? && var s := d.saved.value;
    s.cur < s.fnum < |s.files| && s.files[s.cur].startPosi > 0 && Path(s.files[s.cur]) !in d.data
  }

  /** The record a session works on. */
  function Source(task: Record, saved: Option<Record>): Record {
    if saved.Some? && SameVersions(task, saved.value) then saved.value else task
  }

  /** The file being downloaded is gone from flash, and the saved record, which relied on it, still stands. */
  predicate Dropped(t: Record, saved: Option<Record>, now: Disk)
    requires t.cur < |t.files|
  {
    Claimed(t, saved) && now.saved == saved && Path(t.files[t.cur]) !in now.data
  }

  predicate TakesEffect(fate: Fate) { fate.Done? || fate.part > 0 }

  /** The piece runs past the file's size, or ends there with another hash than the server's. */
  predicate BadEnd(md5: string -> string, t: Record, bytes: string)
    requires t.cur < |t.files|
  {
    var f := t.files[t.cur];
    var end := f.startPosi + |bytes|;
    end > f.fsize || (end == f.fsize && md5(t.ctx + bytes) != f.md5)
  }

  /** The error of a piece that is on flash: it overran the file, or ended it wrongly, or its record failed. */
  function BadCode(md5: string -> string, t: Record, bytes: string): int
    requires t.cur < |t.files|
  {
    var f := t.files[t.cur];
    if f.startPosi + |bytes| > f.fsize then 25
    else if f.startPosi + |bytes| == f.fsize && md5(t.ctx + bytes) != f.md5 then 14
    else 13
  }

  /** Of a deletion and the status write behind it, the first takes effect and the second does not. */
  predicate Unrecorded(fates: nat -> Fate, c: nat) {
    TakesEffect(fates(c)) && (fates(c).PowerLost? || !TakesEffect(fates(c + 1)))
  }

  /** What has to come together, from the c-th flash call on, for a piece to leave a false record: the
      saved record relies on the file, the piece arrives whole and is the bad end of it, the deletion
      takes effect, and the new record does not, for want of power or by failing itself. */
  predicate Breaks(md5: string -> string, fates: nat -> Fate, c: nat, t: Record, saved: Option<Record>, bytes: string)
    requires t.cur < |t.files|
  {
    Claimed(t, saved) && fates(c).Done? && BadEnd(md5, t, bytes) && Unrecorded(fates, c + 1)
  }

  /** One more piece: the offset and the context move on; at the end the hash was right and the next file is up. */
  predicate Advanced(md5: string -> string, t: Record, bytes: string, u: Record)
    requires t.cur < |t.files|
  {
    var f := t.files[t.cur];
    var end := f.startPosi + |bytes|;
    && end <= f.fsize && u.fnum == t.fnum && u.files == t.files[t.cur := f.(startPosi := end, done := end == f.fsize)]
    && if end < f.fsize then u.cur == t.cur && u.ctx == t.ctx + bytes
       else u.cur == t.cur + 1 && md5(t.ctx + bytes) == f.md5
  }

  /** The whole piece is on flash, behind the bytes that the context absorbed. */
  predicate PieceWritten(t: Record, was: Disk, now: Disk, bytes: string)
    requires t.cur < |t.files|
  {
    var f := t.files[t.cur];
    && now.saved == was.saved && f.startPosi <= |Stored(was.data, f)| && t.ctx == Stored(was.data, f)[..f.startPosi]
    && now.data == was.data[Path(f) := Overlay(Stored(was.data, f), f.startPosi, bytes)]
  }

  /** The context belongs to the bytes before the offset. */
  predicate InStep(t: Record, d: Disk) {
    t.cur < |t.files| && var f := t.files[t.cur];
    f.startPosi <= |Stored(d.data, f)| && t.ctx == Stored(d.data, f)[..f.startPosi]
  }

  predicate AllComplete(md5: string -> string, t: Record, data: map<string, string>) {
    t.fnum <= |t.files| && forall i :: 0 <= i < t.fnum ==> Complete(md5, data, t.files[i])
  }

  lemma FreshIsOk(md5: string -> string, t: Record, data: map<string, string>)
    requires Fresh(t)
    ensures RecordOk(md5, t, data) && Behind(t, t)
  {
  }

  // ----- deleting a record's files --------------------------------------------------------

  /** What Tms_DelAllDownloadInfo deletes for one file; for a parameter file, two names that the downloader
      does not write. */
  function Deletions(f: File): seq<string> {
    if f.kind in ["UF", "APP", "DD", "WB"] then ["/ext/tms/" + f.name]
    else if f.kind == "PF" then ["/ext/tms/" + f.name, ".bak"]
    else []
  }

  /** A program file is deleted where it was written; a parameter file is not. */
  lemma DeletedPaths(f: File)
    ensures f.kind in ["UF", "APP", "DD", "WB"] ==> Deletions(f) == [Path(f)] && Path(f) == "/ext/tms/" + f.name
    ensures f.kind == "PF" ==> Path(f) !in Deletions(f) && Path(f) == "/ext/tms/" + f.name + ".bak"
  {
    assert "/ext/tms/" + f.name + "" == "/ext/tms/" + f.name;
    assert "PF"[0] == 'P' && "UF"[0] == 'U' && "APP"[0] == 'A' && "DD"[0] == 'D' && "WB"[0] == 'W';
    if f.kind in ["UF", "APP", "DD", "WB"] {
      assert f.kind == "UF" || f.kind == "APP" || f.kind == "DD" || f.kind == "WB";
      assert f.kind[0] != 'P';
    } else if f.kind == "PF" {
      assert Deletions(f) == ["/ext/tms/" + f.name, ".bak"];
      assert |Path(f)| == |"/ext/tms/" + f.name| + 4 > 4;
    }
  }

  function AllDeletions(files: seq<File>, n: nat): seq<string>
    requires n <= |files|
  {
    if n == 0 then [] else AllDeletions(files, n - 1) + Deletions(files[n - 1])
  }

  /** The power holds over n flash calls, the c-th being the first. */
  predicate Powered(fates: nat -> Fate, c: nat, n: nat) {
    forall i :: c <= i < c + n ==> !fates(i).PowerLost?
  }

  /** One of these deletions is made, and takes effect on p. */
  predicate Gone(fates: nat -> Fate, c: nat, paths: seq<string>, p: string) {
    exists i :: 0 <= i < |paths| && paths[i] == p && Powered(fates, c, i) && TakesEffect(fates(c + i))
  }

  /** The record's own deletion, behind them, is made and takes effect. */
  predicate StatusGone(fates: nat -> Fate, c: nat, paths: seq<string>) {
    Powered(fates, c, |paths|) && TakesEffect(fates(c + |paths|))
  }

  /** The record counts on bytes of the file at p. */
  predicate Relies(s: Record, p: string) {
    exists i :: 0 <= i <= s.cur && i < s.fnum <= |s.files| && Path(s.files[i]) == p
                && (i < s.cur || s.files[i].startPosi > 0)
  }

  /** What has to come together, from the c-th flash call on, for the deletion of a record's files to leave
      the record behind, and false. */
  predicate LeftFalse(fates: nat -> Fate, c: nat, s: Record)
    requires s.cur < |s.files|
  {
    var paths := AllDeletions(s.files, s.cur + 1);
    && !StatusGone(fates, c, paths)
    && exists i :: 0 <= i < |paths| && Relies(s, paths[i]) && Powered(fates, c, i) && TakesEffect(fates(c + i))
  }

  ghost predicate Removed(was: map<string, string>, now: map<string, string>, fates: nat -> Fate, c: nat,
      paths: seq<string>) {
    forall p :: (p in now <==> p in was && !Gone(fates, c, paths, p)) && (p in now ==> now[p] == was[p])
  }

  lemma Powering(fates: nat -> Fate, c: nat, paths: seq<string>)
    ensures Powered(fates, c, 0)
    ensures Powered(fates, c, |paths|) ==> (StatusGone(fates, c, paths) <==> TakesEffect(fates(c + |paths|)))
    ensures Powered(fates, c, |paths|) ==> (Powered(fates, c, |paths| + 1) <==> !fates(c + |paths|).PowerLost?)
  {
  }

  lemma NothingRemoved(data: map<string, string>, fates: nat -> Fate, c: nat)
    ensures Removed(data, data, fates, c, [])
  {
  }

  /** One more deletion. */
  lemma OneRemoved(was: map<string, string>, now: map<string, string>, next: map<string, string>, fates: nat -> Fate,
                   c: nat, paths: seq<string>, path: string)
    requires Removed(was, now, fates, c, paths) && Powered(fates, c, |paths|)
    requires next == if TakesEffect(fates(c + |paths|)) then now - {path} else now
    ensures Removed(was, next, fates, c, paths + [path])
    ensures Powered(fates, c, |paths| + 1) <==> !fates(c + |paths|).PowerLost?
  {
    var more := paths + [path];
    forall p ensures Gone(fates, c, more, p) <==> Gone(fates, c, paths, p)
                                                  || (p == path && TakesEffect(fates(c + |paths|))) {
      if Gone(fates, c, paths, p) {
        var i :| 0 <= i < |paths| && paths[i] == p && Powered(fates, c, i) && TakesEffect(fates(c + i));
        assert more[i] == p;
      }
      if p == path && TakesEffect(fates(c + |paths|)) { assert more[|paths|] == p; }
    }
  }

  /** Where the power went, the list might as well have ended. */
  lemma CutOff(was: map<string, string>, now: map<string, string>, fates: nat -> Fate, c: nat, paths: seq<string>,
      all: seq<string>)
    requires Removed(was, now, fates, c, paths) && paths <= all && !Powered(fates, c, |paths|)
    ensures Removed(was, now, fates, c, all) && !StatusGone(fates, c, all) && !Powered(fates, c, |all| + 1)
  {
    forall p ensures Gone(fates, c, all, p) <==> Gone(fates, c, paths, p) {
      if Gone(fates, c, paths, p) {
        var i :| 0 <= i < |paths| && paths[i] == p && Powered(fates, c, i) && TakesEffect(fates(c + i));
        assert all[i] == p;
      }
    }
    assert !Powered(fates, c, |all|);
  }

  lemma {:induction false} DeletionsGrow(files: seq<File>, m: nat, n: nat)
    requires m <= n <= |files|
    ensures AllDeletions(files, m) <= AllDeletions(files, n)
    decreases n - m
  {
    if m < n { DeletionsGrow(files, m, n - 1); }
  }

  /** The record goes with its files, or stays true without them, exactly if it is not left behind false. */
  lemma {:induction false} RemovedBreaks(md5: string -> string, s: Record, was: map<string, string>,
                                         now: map<string, string>,
                                         fates: nat -> Fate, c: nat)
    requires RecordOk(md5, s, was) && Removed(was, now, fates, c, AllDeletions(s.files, s.cur + 1))
    ensures StatusGone(fates, c, AllDeletions(s.files, s.cur + 1)) || RecordOk(md5, s, now) <==> !LeftFalse(fates, c, s)
  {
    var paths := AllDeletions(s.files, s.cur + 1);
    if !StatusGone(fates, c, paths) {
      if LeftFalse(fates, c, s) {
        var j :| 0 <= j < |paths| && Relies(s, paths[j]) && Powered(fates, c, j) && TakesEffect(fates(c + j));
        var i :| 0 <= i <= s.cur && i < s.fnum && Path(s.files[i]) == paths[j]
            && (i < s.cur || s.files[i].startPosi > 0);
        assert Gone(fates, c, paths, paths[j]);
        assert Stored(now, s.files[i]) == "" && s.files[i].fsize > 0;
        assert !FileOk(md5, s, now, i);
      } else {
        forall i | 0 <= i < s.fnum ensures FileOk(md5, s, now, i) {
          assert FileOk(md5, s, was, i);
          var p := Path(s.files[i]);
          if i < s.cur || (i == s.cur && s.files[i].startPosi > 0) {
            assert Relies(s, p);
            assert !Gone(fates, c, paths, p);
            assert Stored(now, s.files[i]) == Stored(was, s.files[i]);
          }
        }
      }
    }
  }

  // ----- a record that believes in bytes that are gone ------------------------------------

  /** WriteFile_Api behind the end of a file: the bytes between are whatever the flash shows there. */
  function Reach(content: string, at: nat, gap: char): (s: string)
    ensures |s| == (if at <= |content| then |content| else at) && content <= s
    ensures forall i :: |content| <= i < |s| ==> s[i] == gap
  {
    if at <= |content| then content else content + seq(at - |content|, _ => gap)
  }

  /** The same file with the first k bytes missing. */
  predicate HoleIn(there: string, believed: string, k: nat, gap: char) {
    k <= |there| == |believed| && there[k..] == believed[k..] && forall i :: 0 <= i < k ==> there[i] == gap
  }

  /** The flash is what is believed, except that the first k bytes of the file at p are missing, and all of
      the files at the paths in `missing`. */
  ghost predicate Shadow(data: map<string, string>, believed: map<string, string>, p: string, k: nat,
                         missing: set<string>, gap: char) {
    && p !in missing && (forall q :: q in missing ==> q !in data)
    && (forall q :: q != p && q !in missing ==>
                    (q in data <==> q in believed) && (q in data ==> data[q] == believed[q]))
    && (p in data ==> p in believed && HoleIn(data[p], believed[p], k, gap))
    && (p in believed && p !in data ==> |believed[p]| == k)
  }

  /** A write at or behind the hole's end, and to none of the missing files, leaves that as it is. */
  lemma ShadowWrite(data: map<string, string>, believed: map<string, string>, p: string, k: nat, missing: set<string>,
                    gap: char, f: File, bytes: string)
    requires Shadow(data, believed, p, k, missing, gap) && f.startPosi <= |Stored(believed, f)| && Path(f) !in missing
    requires Path(f) == p ==> p in believed && f.startPosi >= k
    ensures Shadow(data[Path(f) := Overlay(Reach(Stored(data, f), f.startPosi, gap), f.startPosi, bytes)],
                   believed[Path(f) := Overlay(Stored(believed, f), f.startPosi, bytes)], p, k, missing, gap)
  {
    if Path(f) == p {
      var there, bel := Reach(Stored(data, f), f.startPosi, gap), Stored(believed, f);
      assert HoleIn(there, bel, k, gap) by {
        if p !in data { assert there[k..] == "" == bel[k..]; }
      }
      var r, b := Overlay(there, f.startPosi, bytes), Overlay(bel, f.startPosi, bytes);
      forall i | 0 <= i < |r| - k ensures r[k..][i] == b[k..][i] {
        if k + i < f.startPosi || k + i >= f.startPosi + |bytes| { assert there[k..][i] == bel[k..][i]; }
      }
    }
  }

  lemma ShadowDelete(data: map<string, string>, believed: map<string, string>, p: string, k: nat, missing: set<string>,
                     gap: char, q: string)
    requires Shadow(data, believed, p, k, missing, gap)
    ensures Shadow(data - {q}, believed - {q}, p, k, missing, gap)
  {
  }

  lemma DroppedIsLost(md5: string -> string, t: Record, was: Disk, now: Disk)
    requires Inv(md5, t, was) && t.cur < t.fnum && Dropped(t, was.saved, now)
    ensures Lost(now)
  {
    assert SameFile(was.saved.value.files[t.cur], t.files[t.cur]);
  }

  lemma Restarted(md5: string -> string, t: Record, d: Disk)
    requires RecordOk(md5, t, d.data) && t.cur < t.fnum && t.files[t.cur].startPosi == 0
    ensures RecordOk(md5, t.(ctx := ""), d.data) && (Inv(md5, t, d) ==> Inv(md5, t.(ctx := ""), d))
  {
    forall i | 0 <= i < t.fnum ensures FileOk(md5, t.(ctx := ""), d.data, i) { assert FileOk(md5, t, d.data, i); }
  }

  lemma AllBeforeCur(md5: string -> string, t: Record, data: map<string, string>)
    requires RecordOk(md5, t, data) && t.cur == t.fnum
    ensures AllComplete(md5, t, data)
  {
    forall i | 0 <= i < t.fnum ensures Complete(md5, data, t.files[i]) { assert FileOk(md5, t, data, i); }
  }

  // ----- one flash call at a time ---------------------------------------------------------

  /** Writing at or behind the offset disturbs nothing that a record relies on. */
  lemma {:induction false} WriteKeeps(md5: string -> string, r: Record, data: map<string, string>, t: Record,
      bytes: string)
    requires RecordOk(md5, r, data) && Behind(r, t) && RecordOk(md5, t, data) && t.cur < t.fnum
    requires t.files[t.cur].startPosi <= |Stored(data, t.files[t.cur])|
    ensures var f := t.files[t.cur];
            RecordOk(md5, r, data[Path(f) := Overlay(Stored(data, f), f.startPosi, bytes)])
  {
    var f := t.files[t.cur];
    var now := data[Path(f) := Overlay(Stored(data, f), f.startPosi, bytes)];
    forall i | 0 <= i < r.fnum ensures FileOk(md5, r, now, i) {
      assert FileOk(md5, r, data, i) && SameFile(r.files[i], t.files[i]);
      assert i != t.cur ==> Path(r.files[i]) != Path(f);
      if i == t.cur && i == r.cur && r.files[i].startPosi > 0 {
        assert Stored(now, r.files[i])[..r.files[i].startPosi] == Stored(data, r.files[i])[..r.files[i].startPosi];
      }
    }
  }

  /** Deleting the file being downloaded leaves the saved record true exactly when it relied on none of its bytes. */
  lemma {:induction false} DeleteBreaks(md5: string -> string, s: Record, t: Record, d: Disk)
    requires d.saved == Some(s) && RecordOk(md5, s, d.data) && Behind(s, t) && TaskOk(t.files, t.fnum) && t.cur < t.fnum
    ensures DiskOk(md5, Disk(d.data - {Path(t.files[t.cur])}, d.saved)) <==> !Claimed(t, d.saved)
    ensures Claimed(t, d.saved) ==> Path(t.files[t.cur]) in d.data
  {
    var f := t.files[t.cur];
    var now := d.data - {Path(f)};
    if Claimed(t, d.saved) {
      assert FileOk(md5, s, d.data, s.cur) && SameFile(s.files[s.cur], f);
      assert Stored(now, s.files[s.cur]) == "";
      assert !FileOk(md5, s, now, s.cur);
    } else {
      forall i | 0 <= i < s.fnum ensures FileOk(md5, s, now, i) {
        assert FileOk(md5, s, d.data, i) && SameFile(s.files[i], t.files[i]);
        assert i != t.cur ==> Path(s.files[i]) != Path(f);
      }
    }
  }

  /** Only the current file and its entry change: the record stays true if it is true of that file. */
  lemma {:induction false} RestKept(md5: string -> string, t: Record, data: map<string, string>, u: Record,
      now: map<string, string>, g: File)
    requires RecordOk(md5, t, data) && t.cur < t.fnum && SameFile(g, t.files[t.cur]) && ElseSame(data, now, Path(g))
    requires u.files == t.files[t.cur := g] && u.fnum == t.fnum && (u.cur == t.cur || u.cur == t.cur + 1)
    requires FileOk(md5, u, now, t.cur)
    ensures RecordOk(md5, u, now)
  {
    forall i | 0 <= i < u.fnum ensures FileOk(md5, u, now, i) {
      assert FileOk(md5, t, data, i);
      assert i != t.cur ==> Path(u.files[i]) != Path(g);
    }
  }

  /** After a piece is written and absorbed, the context is again the hash of what is on flash. */
  lemma PieceAbsorbed(data: map<string, string>, f: File, ctx: string, bytes: string)
    requires f.startPosi <= |Stored(data, f)| && ctx == Stored(data, f)[..f.startPosi]
    ensures var now := data[Path(f) := Overlay(Stored(data, f), f.startPosi, bytes)]; var end := f.startPosi + |bytes|;
            end <= |Stored(now, f)| && ctx + bytes == Stored(now, f)[..end]
  {
  }

  lemma PieceFacts(md5: string -> string, t: Record, was: Disk, now: Disk, bytes: string)
    requires RecordOk(md5, t, now.data) && t.cur < t.fnum && PieceWritten(t, was, now, bytes)
    ensures t.fnum < |t.files| && !t.files[t.cur].done && t.files[t.cur].startPosi < t.files[t.cur].fsize
    ensures Path(t.files[t.cur]) in now.data && now.saved == was.saved
  {
    assert FileOk(md5, t, now.data, t.cur);
  }

  lemma PieceRecorded(md5: string -> string, t: Record, was: Disk, now: Disk, bytes: string, u: Record)
    requires RecordOk(md5, t, was.data) && t.cur < t.fnum && PieceWritten(t, was, now, bytes)
    requires bytes != "" && Advanced(md5, t, bytes, u)
    ensures RecordOk(md5, u, now.data) && Behind(u, u)
  {
    var f := t.files[t.cur];
    assert FileOk(md5, t, was.data, t.cur);
    PieceAbsorbed(was.data, f, t.ctx, bytes);
    RestKept(md5, t, was.data, u, now.data, u.files[t.cur]);
  }

  /** A data write, whole or cut short, disturbs neither record. */
  lemma PieceKeeps(md5: string -> string, t: Record, was: Disk, now: Disk, bytes: string)
    requires RecordOk(md5, t, was.data) && t.cur < t.fnum && now.saved == was.saved && InStep(t, was)
    requires var f := t.files[t.cur];
             exists k :: 0 <= k <= |bytes|
                         && now.data == was.data[Path(f) := Overlay(Stored(was.data, f), f.startPosi, bytes[..k])]
    ensures RecordOk(md5, t, now.data) && (Inv(md5, t, was) ==> Inv(md5, t, now))
    ensures Path(t.files[t.cur]) in now.data && ElseSame(was.data, now.data, Path(t.files[t.cur]))
  {
    var f := t.files[t.cur];
    var k :| 0 <= k <= |bytes|
        && now.data == was.data[Path(f) := Overlay(Stored(was.data, f), f.startPosi, bytes[..k])];
    WriteKeeps(md5, t, was.data, t, bytes[..k]);
    if was.saved.Some? && Inv(md5, t, was) { WriteKeeps(md5, was.saved.value, was.data, t, bytes[..k]); }
  }

  lemma InvIsOk(md5: string -> string, t: Record, d: Disk)
    ensures Inv(md5, t, d) ==> DiskOk(md5, d) && RecordOk(md5, t, d.data)
  {
  }

  lemma NotBroken(md5: string -> string, fates: nat -> Fate, c: nat, t: Record, saved: Option<Record>, bytes: string)
    requires t.cur < |t.files| && !fates(c).Done?
    ensures !Breaks(md5, fates, c, t, saved, bytes)
  {
  }

  lemma BreaksSplit(md5: string -> string, fates: nat -> Fate, c: nat, t: Record, saved: Option<Record>, bytes: string)
    requires t.cur < |t.files| && fates(c).Done?
    ensures Breaks(md5, fates, c, t, saved, bytes) <==>
            Claimed(t, saved) && BadEnd(md5, t, bytes) && Unrecorded(fates, c + 1)
  {
  }

  lemma PieceIsWritten(t: Record, was: Disk, now: Disk, bytes: string)
    requires t.cur < |t.files| && InStep(t, was) && now.saved == was.saved
    requires var f := t.files[t.cur]; now.data == was.data[Path(f) := Overlay(Stored(was.data, f), f.startPosi, bytes)]
    ensures PieceWritten(t, was, now, bytes)
  {
  }

  // ----- what a session promises ----------------------------------------------------------

  /** Every file of the job is there, with the hash that the server gave for it. */
  predicate ServersHashes(md5: string -> string, task: Record, data: map<string, string>) {
    forall i :: 0 <= i < task.fnum && i < |task.files| ==>
      && task.files[i].fsize <= |Stored(data, task.files[i])|
      && md5(Stored(data, task.files[i])[..task.files[i].fsize]) == task.files[i].md5
  }

  /** A saved record that takes over carries the server's checksums. */
  predicate ServersChecksums(task: Record, saved: Option<Record>) {
    saved.Some? && SameVersions(task, saved.value) ==>
      forall i :: 0 <= i < task.fnum && i < |task.files| && i < |saved.value.files| ==>
                    saved.value.files[i].md5 == task.files[i].md5
  }

  /** Complete files have the server's hashes exactly if a saved record that takes over has the server's
      checksums: the version check does not look at them. */
  lemma ChecksumsAreTheServers(md5: string -> string, task: Record, saved: Option<Record>, t: Record,
                               data: map<string, string>)
    requires Fresh(task) && SameTask(Source(task, saved), t) && AllComplete(md5, t, data)
    ensures ServersHashes(md5, task, data) <==> ServersChecksums(task, saved)
  {
    var source := Source(task, saved);
    forall i | 0 <= i < task.fnum
      ensures t.files[i].md5 == source.files[i].md5 && Stored(data, t.files[i]) == Stored(data, task.files[i])
      ensures task.files[i].fsize == t.files[i].fsize <= |Stored(data, task.files[i])|
      ensures md5(Stored(data, task.files[i])[..task.files[i].fsize]) == source.files[i].md5
    {
      assert SameFile(source.files[i], t.files[i]) && SameVersion(source.files[i], task.files[i]);
      assert Complete(md5, data, t.files[i]);
    }
    if ServersHashes(md5, task, data) && saved.Some? && SameVersions(task, saved.value) {
      forall i | 0 <= i < task.fnum ensures saved.value.files[i].md5 == task.files[i].md5 {
        assert md5(Stored(data, task.files[i])[..task.files[i].fsize]) == task.files[i].md5;
      }
    }
  }

  /** The same number of files, and of each of them, and of the entry behind the last, the same name, type,
      version and size. */
  predicate SameFields(t: Record, s: Record) {
    && t.fnum == s.fnum < |s.files| == |t.files|
    && forall i :: 0 <= i <= t.fnum ==>
         && t.files[i].name == s.files[i].name && t.files[i].kind == s.files[i].kind
         && t.files[i].version == s.files[i].version && t.files[i].fsize == s.files[i].fsize
  }

  lemma FieldByField(t: Record, s: Record)
    ensures SameVersions(t, s) <==> SameFields(t, s)
  {
    if SameVersions(t, s) {
      assert forall i :: 0 <= i <= t.fnum ==> SameVersion(s.files[i], t.files[i]);
    }
  }

  /** One file in another version is enough: a session works on the server's record then, and the hashes of a
      success are the server's. */
  lemma NewVersionIsFetched(task: Record, saved: Record, i: nat)
    requires i < task.fnum && i < |task.files| && i < |saved.files| && task.files[i].version != saved.files[i].version
    ensures Source(task, Some(saved)) == task && ServersChecksums(task, Some(saved))
  {
    assert !SameVersion(saved.files[i], task.files[i]);
  }

  /** The old record of other files is still there, because its deletion took no effect. Either that left it
      false, or the power held and the session went on, over its files. */
  predicate Undeleted(task: Record, saved: Option<Record>, fates: nat -> Fate, c: nat, now: Disk) {
    && saved.Some? && saved.value.cur < |saved.value.files| && now.saved == saved && !SameVersions(task, saved.value)
    && var paths := AllDeletions(saved.value.files, saved.value.cur + 1);
       && !StatusGone(fates, c, paths)
       && (LeftFalse(fates, c, saved.value) || Powered(fates, c, |paths| + 1))
  }

  /** The files that a record has done with and that were deleted all the same. */
  function DoneAndGone(s: Record, gone: set<string>): set<string> {
    set i | 0 <= i < s.cur && i < |s.files| && Path(s.files[i]) in gone :: Path(s.files[i])
  }

  /** How many bytes of the deleted current file a record counts on. */
  function HoleDepth(s: Record, gone: set<string>): nat {
    if s.cur < s.fnum <= |s.files| && Path(s.files[s.cur]) in gone then s.files[s.cur].startPosi else 0
  }

  function HolePath(s: Record, gone: set<string>): string {
    if HoleDepth(s, gone) > 0 then Path(s.files[s.cur]) else ""
  }

  /** The flash as the record still takes it to be. */
  function Believed(s: Record, before: map<string, string>, gone: set<string>): map<string, string> {
    var kept := before - (gone - DoneAndGone(s, gone));
    if HoleDepth(s, gone) > 0 && HoleDepth(s, gone) <= |Stored(before, s.files[s.cur])|
    then kept[HolePath(s, gone) := Stored(before, s.files[s.cur])[..HoleDepth(s, gone)]] else kept
  }

  lemma {:induction false} BeliefIsTrue(md5: string -> string, s: Record, before: map<string, string>,
      gone: set<string>, gap: char)
    requires RecordOk(md5, s, before)
    ensures RecordOk(md5, s, Believed(s, before, gone))
    ensures Shadow(before - gone, Believed(s, before, gone), HolePath(s, gone), HoleDepth(s, gone),
            DoneAndGone(s, gone), gap)
    ensures HoleDepth(s, gone) == 0 && DoneAndGone(s, gone) == {} ==> Believed(s, before, gone) == before - gone
  {
    var believed := Believed(s, before, gone);
    if s.cur < s.fnum { assert FileOk(md5, s, before, s.cur); }
    forall i | 0 <= i < s.fnum ensures FileOk(md5, s, believed, i) {
      assert FileOk(md5, s, before, i);
      var p := Path(s.files[i]);
      if i < s.cur {
        assert s.cur < s.fnum ==> p != Path(s.files[s.cur]);
        assert p in gone ==> p in DoneAndGone(s, gone);
        assert Stored(believed, s.files[i]) == Stored(before, s.files[i]);
      }
    }
    forall q | q in DoneAndGone(s, gone) ensures q != HolePath(s, gone) && q != "" && q in gone {
      var i :| 0 <= i < s.cur && i < |s.files| && Path(s.files[i]) in gone && Path(s.files[i]) == q;
      assert |q| > 0;
    }
  }

  /** Whatever was gone, every file counts as complete; those done with before are not there, and the one that
      was half-way there lacks its first bytes. */
  ghost predicate CountedComplete(md5: string -> string, data: map<string, string>, s: Record, t: Record,
                                  gone: set<string>, gap: char) {
    && SameTask(s, t) && s.cur <= s.fnum && (forall i :: 0 <= i < t.fnum ==> t.files[i].done)
    && (forall i :: 0 <= i < s.cur ==> Path(t.files[i]) in gone ==> Path(t.files[i]) !in data)
    && (HoleDepth(s, gone) > 0 ==> MarkedWithHole(md5, data, t.files[s.cur], s.files[s.cur], gap))
  }

  /** The file counts as complete, and k bytes at its start are not the ones its hash was taken over. */
  ghost predicate MarkedWithHole(md5: string -> string, data: map<string, string>, now: File, was: File, gap: char) {
    && SameFile(was, now) && now.done && was.startPosi < now.fsize <= |Stored(data, now)|
    && (forall i :: 0 <= i < was.startPosi ==> Stored(data, now)[i] == gap)
    && exists whole: string :: Hashed(md5, whole, Stored(data, now), was.startPosi, now)
  }

  /** The hash that was checked is that of `whole`, which the stored bytes equal from k on. */
  predicate Hashed(md5: string -> string, whole: string, stored: string, k: nat, f: File) {
    k <= |whole| == f.fsize <= |stored| && whole[k..] == stored[k..f.fsize] && md5(whole) == f.md5
  }

  lemma HolesAreThere(md5: string -> string, s: Record, t: Record, data: map<string, string>,
                      believed: map<string, string>,
                      gone: set<string>, gap: char)
    requires SameTask(s, t) && s.cur <= s.fnum && AllComplete(md5, t, believed)
    requires s.cur < s.fnum ==> s.files[s.cur].startPosi < s.files[s.cur].fsize
    requires (HoleDepth(s, gone) == 0 && DoneAndGone(s, gone) == {})
             || Shadow(data, believed, HolePath(s, gone), HoleDepth(s, gone), DoneAndGone(s, gone), gap)
    ensures CountedComplete(md5, data, s, t, gone, gap)
  {
    forall i | 0 <= i < t.fnum ensures t.files[i].done { assert Complete(md5, believed, t.files[i]); }
    forall i | 0 <= i < s.cur && Path(t.files[i]) in gone ensures Path(t.files[i]) !in data {
      assert SameFile(s.files[i], t.files[i]);
      assert Path(s.files[i]) in DoneAndGone(s, gone);
    }
    if HoleDepth(s, gone) > 0 {
      var was, now, k := s.files[s.cur], t.files[s.cur], s.files[s.cur].startPosi;
      assert SameFile(was, now) && Complete(md5, believed, now);
      var there, whole := Stored(data, now), Stored(believed, now)[..now.fsize];
      assert HoleIn(there, Stored(believed, now), k, gap);
      assert whole[k..] == Stored(believed, now)[k..][..now.fsize - k];
      assert there[k..now.fsize] == there[k..][..now.fsize - k];
      assert Hashed(md5, whole, there, k, now);
    }
  }

  /** The path is that of a file before the current one. */
  predicate DoneWith(t: Record, q: string) {
    exists i :: 0 <= i < t.cur && i < t.fnum <= |t.files| && Path(t.files[i]) == q
  }

  // ----- the downloader -------------------------------------------------------------------

  /** The flash is `flash`. Records speak of `disk`: the same, unless a deletion went unrecorded; then the
      first `depth` bytes of the `holder`-th file, and the `missing` files before it, all of which they
      count on, are not on the real flash. */
  class Downloader {
    const md5: string -> string
    const fates: nat -> Fate
    const gap: char
    var calls: nat
    var off: bool
    var t: Record
    var flash: Disk
    ghost var disk: Disk
    ghost var depth: nat
    ghost var hole: string
    ghost var holder: nat
    ghost var missing: set<string>

    constructor (md5: string -> string, fates: nat -> Fate, gap: char, flash: Disk)
      ensures this.md5 == md5 && this.fates == fates && this.gap == gap && this.flash == flash == disk && Intact()
      ensures !off && calls == 0 && Twin()
    {
      this.md5, this.fates, this.gap, this.flash, disk := md5, fates, gap, flash, flash;
      calls, off, t, depth, hole, holder, missing := 0, false, Record([], 0, 0, ""), 0, "", 0, {};
    }

    ghost predicate Intact()
      reads this`depth, this`missing
    {
      depth == 0 && missing == {}
    }

    ghost predicate Twin()
      reads this`flash, this`disk, this`depth, this`hole, this`missing
    {
      && flash.saved == disk.saved && (depth == 0 ==> hole == "")
      && if Intact() then flash == disk else Shadow(flash.data, disk.data, hole, depth, missing, gap)
    }

    /** What the record counts on in the file with the hole goes at least as far as the hole, and the missing
        files are ones that it has done with. */
    ghost predicate Deep(t: Record)
      reads this`depth, this`hole, this`holder, this`missing
    {
      && (depth > 0 ==>
            && holder < t.fnum <= |t.files| && Path(t.files[holder]) == hole && holder <= t.cur
            && (t.cur == holder ==> t.files[t.cur].startPosi >= depth))
      && forall q :: q in missing ==> DoneWith(t, q)
    }

    /** One flash call: whether it reports success, and how much of it took effect. */
    method Call() returns (ok: bool, part: nat)
      modifies this`calls, this`off
      ensures calls == old(calls) + 1 && (ok <==> fates(old(calls)).Done?)
      ensures ok || part > 0 <==> TakesEffect(fates(old(calls)))
      ensures off <==> old(off) || fates(old(calls)).PowerLost?
    {
      var fate := fates(calls);
      calls := calls + 1;
      ok, part := fate.Done?, if fate.Done? then 1 else fate.part;
      off := off || fate.PowerLost?;
    }

    /** The data write; one that does not succeed may have written a first part. */
    method WriteData(f: File, bytes: string) returns (ok: bool)
      requires !off && Twin() && f.startPosi <= |Stored(disk.data, f)|
      requires Path(f) !in missing && (depth > 0 && Path(f) == hole ==> f.startPosi >= depth)
      modifies this`calls, this`off, this`flash, this`disk
      ensures Twin() && disk.saved == old(disk).saved && calls == old(calls) + 1
      ensures exists k ::
                && 0 <= k <= |bytes|
                && disk.data == old(disk).data[Path(f) := Overlay(Stored(old(disk).data, f), f.startPosi, bytes[..k])]
      ensures ok <==> fates(old(calls)).Done?
      ensures ok ==> !off && disk.data
                     == old(disk).data[Path(f) := Overlay(Stored(old(disk).data, f), f.startPosi, bytes)]
    {
      var part;
      ok, part := Call();
      var written := if ok || part > |bytes| then |bytes| else part;
      assert ok ==> bytes[..written] == bytes;
      if !Intact() {
        assert |Path(f)| > 0;
        ShadowWrite(flash.data, disk.data, hole, depth, missing, gap, f, bytes[..written]);
      }
      var content := Reach(Stored(flash.data, f), f.startPosi, gap);
      flash := flash.(data := flash.data[Path(f) := Overlay(content, f.startPosi, bytes[..written])]);
      disk := disk.(data := disk.data[Path(f) := Overlay(Stored(disk.data, f), f.startPosi, bytes[..written])]);
    }

    /** The status write: the record on flash is the old one or the new one. */
    method Save() returns (ok: bool)
      requires !off && Twin()
      modifies this`calls, this`off, this`flash, this`disk
      ensures Twin() && disk.data == old(disk).data && calls == old(calls) + 1
      ensures disk.saved == if TakesEffect(fates(old(calls))) then Some(t) else old(disk).saved
      ensures (ok <==> fates(old(calls)).Done?) && (ok ==> !off)
    {
      var part;
      ok, part := Call();
      if ok || part > 0 { flash, disk := flash.(saved := Some(t)), disk.(saved := Some(t)); }
    }

    method Delete(path: string)
      requires !off && Twin()
      modifies this`calls, this`off, this`flash, this`disk
      ensures Twin() && disk.saved == old(disk).saved && calls == old(calls) + 1
      ensures disk.data == if TakesEffect(fates(old(calls))) then old(disk).data - {path} else old(disk).data
      ensures off <==> fates(old(calls)).PowerLost?
    {
      var ok, part := Call();
      if ok || part > 0 {
        if !Intact() { ShadowDelete(flash.data, disk.data, hole, depth, missing, gap, path); }
        flash, disk := flash.(data := flash.data - {path}), disk.(data := disk.data - {path});
      }
    }

    /** Tms_WriteFile: the piece, the hash, the check at the end, and the status. It succeeds exactly when
        both writes do and the piece is no bad end; a true record is left false exactly when all of Breaks
        comes together. */
    method WriteFile(bytes: string) returns (ret: int)
      requires !off && Twin() && Deep(t) && bytes != ""
      requires RecordOk(md5, t, disk.data) && t.cur < t.fnum && InStep(t, disk)
      modifies this`calls, this`off, this`flash, this`disk, this`t
      ensures Twin() && (off ==> ret != 0)
      ensures ret == 0 <==> fates(old(calls)).Done? && fates(old(calls) + 1).Done? && !BadEnd(md5, old(t), bytes)
      ensures !fates(old(calls)).Done? ==> ret == 13
      ensures fates(old(calls)).Done? && ret != 0 ==> ret == BadCode(md5, old(t), bytes)
      ensures ret == 0 ==> Inv(md5, t, disk) && Advanced(md5, old(t), bytes, t) && disk.saved == Some(t) && Deep(t)
      ensures ret == 0 ==> PieceWritten(old(t), old(disk), disk.(saved := old(disk).saved), bytes)
      ensures old(Inv(md5, t, disk)) ==>
                if Breaks(md5, fates, old(calls), old(t), old(disk).saved, bytes)
                then !DiskOk(md5, disk) && Dropped(old(t), old(disk).saved, disk) else DiskOk(md5, disk)
      ensures DiskOk(md5, disk) || disk.saved == old(disk).saved
    {
      hide DiskOk, Inv, RecordOk, Behind, Claimed, Overlay, Path, PieceWritten, Breaks, Dropped, BadEnd, Advanced,
           Shadow, InStep;
      ghost var t0, disk0, c := t, disk, calls;
      DeepEnough();
      var ok := WriteData(t.files[t.cur], bytes);
      PieceKeeps(md5, t0, disk0, disk, bytes);
      InvIsOk(md5, t0, disk);
      if !ok {
        NotBroken(md5, fates, c, t0, disk0.saved, bytes);
        return E_WRITE;
      }
      PieceIsWritten(t0, disk0, disk, bytes);
      ret := Settle(bytes, disk0);
    }

    /** A file that holds the hole is written behind it. */
    lemma DeepEnough()
      requires Deep(t) && RecordOk(md5, t, disk.data) && t.cur < t.fnum && InStep(t, disk)
      ensures |t.files| == MAX_FILES && t.fnum < MAX_FILES
              && t.files[t.cur].startPosi <= |Stored(disk.data, t.files[t.cur])|
      ensures Path(t.files[t.cur]) !in missing
      ensures depth > 0 && Path(t.files[t.cur]) == hole ==> t.files[t.cur].startPosi >= depth
    {
    }

    /** What Tms_WriteFile does once the piece is on flash. */
    method Settle(bytes: string, ghost was: Disk) returns (ret: int)
      requires !off && Twin() && Deep(t) && bytes != "" && RecordOk(md5, t, was.data) && RecordOk(md5, t, disk.data)
      requires t.cur < t.fnum && PieceWritten(t, was, disk, bytes) && calls > 0 && fates(calls - 1).Done?
      modifies this`calls, this`off, this`flash, this`disk, this`t
      ensures Twin() && (off ==> ret != 0)
      ensures ret == 0 <==> fates(old(calls)).Done? && !BadEnd(md5, old(t), bytes)
      ensures ret != 0 ==> ret == BadCode(md5, old(t), bytes)
      ensures ret == 0 ==> Inv(md5, t, disk) && Advanced(md5, old(t), bytes, t)
                           && disk == Disk(old(disk).data, Some(t)) && Deep(t)
      ensures old(Inv(md5, t, disk)) ==>
                if Breaks(md5, fates, old(calls) - 1, old(t), was.saved, bytes)
                then !DiskOk(md5, disk) && Dropped(old(t), was.saved, disk) else DiskOk(md5, disk)
      ensures DiskOk(md5, disk) || disk.saved == was.saved
    {
      hide Inv, DiskOk, RecordOk, Behind, Claimed, TaskOk, Path, Dropped, PieceWritten, Stored, Overlay, FileOk,
           Twin, Deep, Breaks;
      ghost var t0 := t;
      InvIsOk(md5, t, disk);
      PieceFacts(md5, t, was, disk, bytes);
      BreaksSplit(md5, fates, calls - 1, t, was.saved, bytes);
      var f := t.files[t.cur];
      t := t.(files := t.files[t.cur := f.(startPosi := f.startPosi + |bytes|)], ctx := t.ctx + bytes);
      f := t.files[t.cur];
      assert SameFile(f, t0.files[t0.cur]) && t.files == t0.files[t0.cur := f];
      ret := 0;
      if f.startPosi == f.fsize {
        if md5(t.ctx) != f.md5 {
          ret := E_MD5;
        } else {
          t := t.(files := t.files[t.cur := f.(done := true)], cur := t.cur + 1, ctx := "");
        }
      } else if f.startPosi > f.fsize {
        ret := E_SIZE;
      }
      assert (ret != 0 <==> BadEnd(md5, t0, bytes)) && BadCode(md5, t0, bytes) == if ret != 0 then ret else 13;
      if ret != 0 {
        Drop(t0);
        return;
      }
      assert Advanced(md5, t0, bytes, t);
      PieceRecorded(md5, t0, was, disk, bytes, t);
      DeepAdvances(t0, t, bytes);
      ret := Finish();
    }

    lemma DeepAdvances(t: Record, u: Record, bytes: string)
      requires Deep(t) && t.cur < |t.files| && Advanced(md5, t, bytes, u) && t.cur < t.fnum
      ensures Deep(u)
    {
      forall q | q in missing ensures DoneWith(u, q) {
        assert DoneWith(t, q);
        var i :| 0 <= i < t.cur && i < t.fnum <= |t.files| && Path(t.files[i]) == q;
        assert u.files[i] == t.files[i];
      }
    }

    /** The status write behind a piece. */
    method Finish() returns (ret: int)
      requires !off && Twin() && RecordOk(md5, t, disk.data) && Behind(t, t)
      modifies this`calls, this`off, this`flash, this`disk
      ensures Twin() && (off ==> ret != 0) && disk.data == old(disk).data
      ensures if fates(old(calls)).Done? then ret == 0 else ret == 13
      ensures old(DiskOk(md5, disk)) ==> DiskOk(md5, disk)
      ensures DiskOk(md5, disk) || disk.saved == old(disk).saved
      ensures ret == 0 ==> Inv(md5, t, disk) && disk.saved == Some(t)
    {
      hide Twin, RecordOk, Behind;
      ghost var disk0 := disk;
      var ok := Save();
      assert disk.saved == disk0.saved ==> disk == disk0;
      ret := if ok then 0 else E_WRITE;
    }

    /** The error branch: back to offset 0, delete, record. */
    method Drop(ghost t0: Record)
      requires !off && Twin() && RecordOk(md5, t0, disk.data)
      requires t0.cur < t0.fnum && t.fnum == t0.fnum && t.cur == t0.cur
      requires exists g :: SameFile(g, t0.files[t0.cur]) && !g.done && t.files == t0.files[t0.cur := g]
      modifies this`calls, this`off, this`flash, this`disk, this`t
      ensures Twin()
      ensures old(Inv(md5, t0, disk)) ==>
                if Claimed(t0, old(disk).saved) && Unrecorded(fates, old(calls))
                then !DiskOk(md5, disk) && Dropped(t0, old(disk).saved, disk) else DiskOk(md5, disk)
      ensures DiskOk(md5, disk) || disk.saved == old(disk).saved
    {
      hide Twin;
      t := t.(files := t.files[t.cur := t.files[t.cur].(startPosi := 0)]);
      var f := t.files[t.cur];
      ghost var disk0 := disk;
      if disk.saved.Some? && Inv(md5, t0, disk) { DeleteBreaks(md5, disk.saved.value, t0, disk); }
      Delete(Path(f));
      assert Path(f) == Path(t0.files[t0.cur]);
      assert disk == disk0 || disk == Disk(disk0.data - {Path(f)}, disk0.saved);
      if off { return; }
      RestKept(md5, t0, disk0.data, t, disk.data, f);
      var ok := Save();
    }

    // ----- the download loop --------------------------------------------------------------

    /** One request and what comes of it. */
    method FetchPiece(reply: Reply) returns (ret: int)
      requires !off && Twin() && Deep(t) && RecordOk(md5, t, disk.data) && t.cur < t.fnum && InStep(t, disk)
      modifies this`calls, this`off, this`flash, this`disk, this`t
      ensures Twin() && (off ==> ret != 0)
      ensures old(Inv(md5, t, disk)) ==> DiskOk(md5, disk) || (Lost(disk) && ret == E_WRITE)
      ensures DiskOk(md5, disk) || disk.saved == old(disk).saved
      ensures ret == 0 ==> RecordOk(md5, t, disk.data) && SameTask(old(t), t) && Deep(t)
      ensures ret == 0 && (old(Inv(md5, t, disk)) || disk.saved != old(disk).saved) ==> Inv(md5, t, disk)
      ensures ret == 0 ==> if t.cur == old(t).cur then InStep(t, disk) && !t.files[t.cur].done
                           else t.cur == old(t).cur + 1 && t.files[old(t).cur].done
      ensures !reply.Content? ==>
                ret == match reply { case NotSent => 6 case NotReceived => 7 case NotResolved => 8 case _ => 2 }
      ensures reply.Content? ==> (ret == 13 && reply.bytes != "") || ret == if reply.connected then 0 else 5
      ensures !reply.Content? || reply.bytes == "" ==> t == old(t) && disk == old(disk)
      ensures reply.Content? && reply.bytes != "" && ret != 13 ==>
                var f := old(t).files[old(t).cur];
                var left := if f.fsize > f.startPosi then f.fsize - f.startPosi else 0;
                var bytes := Padded(reply.bytes, if left > 6000 then 6000 else left);
                && PieceWritten(old(t), old(disk), disk.(saved := old(disk).saved), bytes)
                && Advanced(md5, old(t), bytes, t)
    {
      hide Twin, Deep, Breaks, BadEnd, PieceWritten;
      ret := ErrorCode(reply);
      if ret != 0 && ret != E_CONNECT { return; }
      var f := t.files[t.cur];
      assert FileOk(md5, t, disk.data, t.cur);
      if reply.bytes != "" {
        ghost var t0, disk0 := t, disk;
        var thisLen := if f.fsize - f.startPosi > PIECE then PIECE else f.fsize - f.startPosi;
        var got := WriteFile(Padded(reply.bytes, thisLen));
        if Inv(md5, t0, disk0) && Dropped(t0, disk0.saved, disk) { DroppedIsLost(md5, t0, disk0, disk); }
        if got != 0 { return E_WRITE; }
        if t.cur < t.fnum { assert FileOk(md5, t, disk.data, t.cur); }
      }
    }

    /** What the whole loop leaves of a record that was true, or of one that it has not replaced yet. */
    ghost predicate Kept(truthful: bool, saved: Option<Record>, ret: int)
      reads this`disk
    {
      && (truthful ==> DiskOk(md5, disk) || (Lost(disk) && ret == E_WRITE))
      && (DiskOk(md5, disk) || (Lost(disk) && ret == E_WRITE) || disk.saved == saved)
    }

    /** The loop may go on. */
    ghost predicate GoingOn(t0: Record, truthful: bool, saved: Option<Record>)
      reads this`disk, this`t, this`off, this`depth, this`hole, this`holder, this`missing
    {
      && !off && Deep(t) && RecordOk(md5, t, disk.data) && SameTask(t0, t)
      && (truthful || disk.saved != saved ==> Inv(md5, t, disk))
    }

    /** The requests for one file. */
    method FetchFile(replies: seq<Reply>, at0: nat) returns (ret: int, at: nat)
      requires !off && Twin() && Deep(t) && RecordOk(md5, t, disk.data) && t.cur < t.fnum && InStep(t, disk)
               && at0 <= |replies|
      modifies this`calls, this`off, this`flash, this`disk, this`t
      ensures Twin() && (off ==> ret != 0)
      ensures Kept(old(Inv(md5, t, disk)), old(disk).saved, ret)
      ensures ret == 0 ==> GoingOn(old(t), old(Inv(md5, t, disk)), old(disk).saved) && at0 < at <= |replies|
    {
      hide Twin, Deep;
      at, ret := at0, 0;
      var index, fsize := t.cur, t.files[t.cur].fsize;
      var i := t.files[t.cur].startPosi;
      assert FileOk(md5, t, disk.data, t.cur);
      while i < fsize
        invariant Twin() && GoingOn(old(t), old(Inv(md5, t, disk)), old(disk).saved) && t.cur == index < t.fnum
                  && InStep(t, disk)
        invariant ret == 0 && at0 <= at <= |replies| && (at == at0 ==> i < fsize)
        decreases |replies| - at
      {
        if at == |replies| { return E_RECV, at; }
        at := at + 1;
        ret := FetchPiece(replies[at - 1]);
        if ret != 0 { return; }
        if t.files[index].startPosi > t.files[index].fsize { return E_SIZE, at; }
        if t.files[index].done { return; }
        i := i + PIECE;
      }
    }

    lemma DeepRestarted(t: Record)
      requires Deep(t)
      ensures Deep(t.(ctx := ""))
    {
      forall q | q in missing ensures DoneWith(t.(ctx := ""), q) {
        assert DoneWith(t, q);
      }
    }

    /** Tms_DownloadUrlFilesOneByOne: `ret0` is whatever its result variable held. It reports success
        only when every file, as the records have it, is whole and has the right hash. */
    method Download(replies: seq<Reply>, ret0: int) returns (ret: int)
      requires !off && Twin() && Deep(t) && RecordOk(md5, t, disk.data)
      modifies this`calls, this`off, this`flash, this`disk, this`t
      ensures Twin() && (off ==> ret != 0)
      ensures Kept(old(Inv(md5, t, disk)), old(disk).saved, ret)
      ensures ret == 0 ==> GoingOn(old(t), old(Inv(md5, t, disk)), old(disk).saved) && AllComplete(md5, t, disk.data)
    {
      hide Twin, Deep;
      var at := 0;
      ret := ret0;
      while !t.files[t.cur].done && t.cur < t.fnum
        invariant Twin() && GoingOn(old(t), old(Inv(md5, t, disk)), old(disk).saved) && at <= |replies|
        decreases |replies| - at
      {
        assert FileOk(md5, t, disk.data, t.cur);
        if t.files[t.cur].startPosi > t.files[t.cur].fsize { return E_SIZE; }
        if t.files[t.cur].startPosi == 0 {
          Restarted(md5, t, disk);
          DeepRestarted(t);
          t := t.(ctx := "");
        }
        ret, at := FetchFile(replies, at);
        if ret != 0 { return; }
      }
      assert t.cur < t.fnum ==> FileOk(md5, t, disk.data, t.cur);
      AllBeforeCur(md5, t, disk.data);
    }

    // ----- a session ----------------------------------------------------------------------

    method DeleteStatus()
      requires !off && Twin()
      modifies this`calls, this`off, this`flash, this`disk
      ensures Twin() && disk.data == old(disk).data && (off <==> fates(old(calls)).PowerLost?)
      ensures disk.saved == if TakesEffect(fates(old(calls))) then None else old(disk).saved
    {
      var ok, part := Call();
      if ok || part > 0 { flash, disk := flash.(saved := None), disk.(saved := None); }
    }

    /** Tms_DelAllDownloadInfo: the files up to and including the current one, then the record. */
    method DelAllDownloadInfo(s: Record)
      requires !off && Twin() && disk.saved == Some(s) && s.cur < |s.files|
      modifies this`calls, this`off, this`flash, this`disk
      ensures Twin() && Removed(old(disk).data, disk.data, fates, old(calls), AllDeletions(s.files, s.cur + 1))
      ensures disk.saved == if StatusGone(fates, old(calls), AllDeletions(s.files, s.cur + 1)) then None else Some(s)
      ensures off <==> !Powered(fates, old(calls), |AllDeletions(s.files, s.cur + 1)| + 1)
    {
      hide Twin, Removed, Powered, StatusGone, Gone, Deletions;
      ghost var paths, c, was := [], calls, disk.data;
      NothingRemoved(was, fates, c);
      Powering(fates, c, paths);
      for i := 0 to s.cur + 1
        invariant !off && Twin() && disk.saved == Some(s) && paths == AllDeletions(s.files, i)
        invariant calls == c + |paths| && Powered(fates, c, |paths|) && Removed(was, disk.data, fates, c, paths)
      {
        DeletionsGrow(s.files, i + 1, s.cur + 1);
        paths := DeleteFile(s.files[i], paths, AllDeletions(s.files, s.cur + 1), c, was);
        if off { return; }
      }
      DeleteStatus();
      Powering(fates, c, paths);
    }

    /** The deletions for one file of the record. */
    method DeleteFile(f: File, ghost paths: seq<string>, ghost all: seq<string>, ghost c: nat,
                      ghost was: map<string, string>)
      returns (ghost more: seq<string>)
      requires !off && Twin() && paths + Deletions(f) <= all && calls == c + |paths|
      requires Powered(fates, c, |paths|) && Removed(was, disk.data, fates, c, paths)
      modifies this`calls, this`off, this`flash, this`disk
      ensures Twin() && disk.saved == old(disk).saved && Removed(was, disk.data, fates, c, if off then all else more)
      ensures !off ==> more == paths + Deletions(f) && calls == c + |more| && Powered(fates, c, |more|)
      ensures off ==> !StatusGone(fates, c, all) && !Powered(fates, c, |all| + 1)
    {
      hide Twin, Removed, Powered, StatusGone, Gone;
      more := paths;
      if f.kind in ["UF", "APP", "DD", "WB"] {
        more := DeleteNext("/ext/tms/" + f.name, more, all, c, was);
      } else if f.kind == "PF" {
        assert paths + Deletions(f) == paths + ["/ext/tms/" + f.name] + [".bak"];
        more := DeleteNext("/ext/tms/" + f.name, more, all, c, was);
        if off { return; }
        more := DeleteNext(".bak", more, all, c, was);
      }
    }

    /** One deletion of those. */
    method DeleteNext(path: string, ghost paths: seq<string>, ghost all: seq<string>, ghost c: nat,
        ghost was: map<string, string>)
      returns (ghost more: seq<string>)
      requires !off && Twin() && paths + [path] <= all && calls == c + |paths|
      requires Powered(fates, c, |paths|) && Removed(was, disk.data, fates, c, paths)
      modifies this`calls, this`off, this`flash, this`disk
      ensures Twin() && disk.saved == old(disk).saved && more == paths + [path] && calls == c + |more|
      ensures Removed(was, disk.data, fates, c, more) && (!off ==> Powered(fates, c, |more|))
      ensures off ==> Removed(was, disk.data, fates, c, all) && !StatusGone(fates, c, all)
                      && !Powered(fates, c, |all| + 1)
    {
      hide Twin, Removed, Powered, StatusGone, Gone;
      more := paths + [path];
      ghost var now := disk.data;
      Delete(path);
      OneRemoved(was, now, disk.data, fates, c, paths, path);
      if off { CutOff(was, disk.data, fates, c, more, all); }
    }

    /** Tms_CompareVersions: the saved record takes over when it is of the same files; otherwise it goes. */
    method CompareVersions() returns (matched: bool)
      requires !off && Twin() && Fresh(t) && flash.saved.Some? && DiskOk(md5, disk)
      modifies this`calls, this`off, this`flash, this`disk, this`t
      ensures Twin() && (matched <==> SameVersions(old(t), old(disk).saved.value))
      ensures matched <==> SameFields(old(t), old(disk).saved.value)
      ensures matched ==> !off && disk == old(disk) && calls == old(calls) && t == disk.saved.value && Inv(md5, t, disk)
      ensures !matched ==> t == old(t) && RecordOk(md5, t, disk.data)
      ensures !matched ==> (DiskOk(md5, disk) <==> !LeftFalse(fates, old(calls), old(disk).saved.value))
      ensures !matched ==> var s := old(disk).saved.value;
                           if StatusGone(fates, old(calls), AllDeletions(s.files, s.cur + 1))
                           then disk.saved == None && Inv(md5, t, disk) else disk.saved == Some(s)
      ensures !matched ==> var s := old(disk).saved.value;
                           off <==> !Powered(fates, old(calls), |AllDeletions(s.files, s.cur + 1)| + 1)
    {
      hide Twin, LeftFalse, StatusGone, Powered, Removed, AllDeletions, SameVersion, SameFields;
      SavedIsThere();
      var s := flash.saved.value;
      FieldByField(t, s);
      FreshIsOk(md5, t, disk.data);
      if t.fnum == s.fnum {
        var flag := false;
        for i := 0 to s.fnum + 1
          invariant flag <==> !SameUpTo(t, s, i)
        {
          if !SameVersion(s.files[i], t.files[i]) {
            flag := true;
            break;
          }
        }
        if !flag {
          t := s;
          return true;
        }
      }
      ghost var was, c := disk.data, calls;
      DelAllDownloadInfo(s);
      RemovedBreaks(md5, s, was, disk.data, fates, c);
      FreshIsOk(md5, t, disk.data);
      matched := false;
    }

    /** Tms_RequestTermTask after the server's answer, and the download. Success means that every file of the
        record at work is there, and that its hash is the server's exactly if that record has the server's
        checksums. A true record stays true, or is Lost, or is one of other files whose deletion took no effect. */
    method Session(task: Record, replies: seq<Reply>, ret0: int) returns (ret: int)
      requires Fresh(task) && Twin() && DiskOk(md5, disk)
      requires !Intact() ==> disk.saved.Some? && SameVersions(task, disk.saved.value) && Deep(disk.saved.value)
      modifies this`calls, this`off, this`flash, this`disk, this`t
      ensures Twin()
      ensures !off && ret == 0 ==>
              AllComplete(md5, t, disk.data) && SameTask(Source(task, old(disk).saved), t) && Deep(t)
      ensures task.fnum == 0 ==> ret == 28 && disk == old(disk)
      ensures !off && ret == 0 ==> (ServersHashes(md5, task, disk.data) <==> ServersChecksums(task, old(disk).saved))
      ensures DiskOk(md5, disk) || (Lost(disk) && ret == E_WRITE)
              || Undeleted(task, old(disk).saved, fates, old(calls), disk)
    {
      hide Twin, LeftFalse, AllComplete, ServersHashes, ServersChecksums, SameVersions;
      off, t := false, task;
      FreshIsOk(md5, t, disk.data);
      if t.fnum <= 0 { return E_NOFILES; }
      SavedIsThere();
      ghost var saved := disk.saved;
      if flash.saved.Some? {
        var matched := CompareVersions();
        if off { return OFF; }
      }
      ret := Download(replies, ret0);
      if ret == 0 { ChecksumsAreTheServers(md5, task, saved, t, disk.data); }
    }

    lemma SavedIsThere()
      requires Twin()
      ensures flash.saved == disk.saved && (Intact() ==> flash == disk)
      ensures Intact() ==> forall r :: Deep(r)
    {
    }

    /** Any number of sessions, each for whatever job the server has then and cut off anywhere: flash and
        record agree after each, up to the first that makes a deletion it cannot record. */
    method Sessions(tasks: seq<Record>, replies: seq<seq<Reply>>, ret0: int)
        returns (n: nat, ghost saved: Option<Record>, ghost c: nat)
      requires Intact() && Twin() && DiskOk(md5, flash)
      requires |replies| == |tasks| && forall i :: 0 <= i < |tasks| ==> Fresh(tasks[i])
      modifies this`calls, this`off, this`flash, this`disk, this`t
      ensures n <= |tasks| && (DiskOk(md5, flash) ==> n == |tasks|)
      ensures DiskOk(md5, flash) || Lost(flash) || (n > 0 && Undeleted(tasks[n - 1], saved, fates, c, flash))
    {
      hide DiskOk, Fresh, SameVersions, Lost, Undeleted;
      n, saved, c := 0, disk.saved, calls;
      while n < |tasks|
        invariant n <= |tasks| && Intact() && Twin() && DiskOk(md5, disk)
      {
        saved, c := disk.saved, calls;
        var ret := Session(tasks[n], replies[n], ret0);
        n := n + 1;
        if !DiskOk(md5, flash) { return; }
      }
    }

    /** What can come next, wherever the deletion came from: the firmware boots, finds the same versions, and
        goes on from the record, though the files in `gone` were deleted since it was true, with `before` on
        flash. If that session succeeds, every file counts as complete: those that were done with before are
        not on flash at all, and the one that was half-way there lacks its first bytes. */
    method SessionAfterLoss(task: Record, replies: seq<Reply>, ret0: int, ghost before: map<string, string>,
                            ghost gone: set<string>)
      returns (ret: int)
      requires Fresh(task) && flash.saved.Some? && SameVersions(task, flash.saved.value)
      requires RecordOk(md5, flash.saved.value, before) && flash.data == before - gone
      modifies this
      ensures !off && ret == 0 ==> CountedComplete(md5, flash.data, old(flash).saved.value, t, gone, gap)
    {
      ghost var s := flash.saved.value;
      depth, hole, missing, holder := HoleDepth(s, gone), HolePath(s, gone), DoneAndGone(s, gone), s.cur;
      disk := Disk(Believed(s, before, gone), flash.saved);
      BeliefIsTrue(md5, s, before, gone, gap);
      AsDeepAsItSays(s, gone);
      if s.cur < s.fnum { assert FileOk(md5, s, before, s.cur); }
      ret := Session(task, replies, ret0);
      if !off && ret == 0 { HolesAreThere(md5, s, t, flash.data, disk.data, gone, gap); }
    }

    lemma AsDeepAsItSays(s: Record, gone: set<string>)
      requires TaskOk(s.files, s.fnum) && s.cur <= s.fnum
      requires depth == HoleDepth(s, gone) && hole == HolePath(s, gone) && missing == DoneAndGone(s, gone)
               && holder == s.cur
      ensures Deep(s)
    {
      forall q | q in missing ensures DoneWith(s, q) {
        var i :| 0 <= i < s.cur && i < |s.files| && Path(s.files[i]) in gone && Path(s.files[i]) == q;
      }
    }
  }

  // ----- at concrete flash contents -------------------------------------------------------

  /** A file of four bytes, of which `have` are there. */
  function HalfDone(have: string): Record {
    Record([File("app", "APP", "2", "abcd", 4, |have|, false)] + seq(MAX_FILES - 1, _ => BLANK), 1, 0, have)
  }

  /** The same file, complete, under any checksum. */
  function Downloaded(md5: string): Record {
    Record([File("app", "APP", "2", md5, 4, 4, true)] + seq(MAX_FILES - 1, _ => BLANK), 1, 1, "")
  }

  /** The same file as the server offers it. */
  function Offered(md5: string): Record {
    Record([File("app", "APP", "2", md5, 4, 0, false)] + seq(MAX_FILES - 1, _ => BLANK), 1, 0, "")
  }

  function Plainly(s: string): string { s }

  const APP := "/ext/tms/app"
  const HALF := Disk(map[APP := "ab"], Some(HalfDone("ab")))
  const WHOLE := Disk(map[APP := "abcd"], Some(Downloaded("abcd")))
  const UNSAVED: nat -> Fate := i => if i == 2 then Failed(0) else Done
  const UNDELETED: nat -> Fate := i => if i == 1 then Failed(0) else Done

  /** The same file in a later version, however alike otherwise: the old record does not take over. */
  lemma VersionBump()
    ensures var next := Offered("abcd").(files :=
            Offered("abcd").files[0 := Offered("abcd").files[0].(version := "3")]);
            && Fresh(next) && RecordOk(Plainly, Downloaded("abcd"), WHOLE.data)
            && Source(next, WHOLE.saved) == next && ServersChecksums(next, WHOLE.saved)
  {
    OldChecksumIsKept();
    var next := Offered("abcd").(files := Offered("abcd").files[0 := Offered("abcd").files[0].(version := "3")]);
    NewVersionIsFetched(next, Downloaded("abcd"), 0);
    assert Path(next.files[0]) == APP;
  }

  /** A file republished under the same name, version and size: the old record takes over, says that all is
      complete, and the bytes on flash do not have the new checksum. */
  lemma OldChecksumIsKept()
    ensures Fresh(Offered("wxyz")) && RecordOk(Plainly, Downloaded("abcd"), WHOLE.data)
    ensures Source(Offered("wxyz"), WHOLE.saved) == Downloaded("abcd")
    ensures AllComplete(Plainly, Downloaded("abcd"), WHOLE.data)
    ensures !ServersChecksums(Offered("wxyz"), WHOLE.saved) && !ServersHashes(Plainly, Offered("wxyz"), WHOLE.data)
  {
    assert "abcd"[..4] == "abcd" && "abcd"[0] != "wxyz"[0];
    assert Path(Offered("wxyz").files[0]) == APP && Path(Downloaded("abcd").files[0]) == APP;
    assert Stored(WHOLE.data, Offered("wxyz").files[0]) == "abcd";
    assert FileOk(Plainly, Downloaded("abcd"), WHOLE.data, 0);
    assert Downloaded("abcd").files[0].md5 != Offered("wxyz").files[0].md5;
  }

  lemma OneDeletion(s: Record)
    requires |s.files| >= 2 && s.files[0].kind == "APP" && s.files[0].name == "app" && s.files[1] == BLANK
    ensures AllDeletions(s.files, 2) == [APP]
  {
    var files := s.files;
    assert Deletions(files[0]) == ["/ext/tms/" + "app"] by { assert files[0].kind == ["UF", "APP", "DD", "WB"][1]; }
    assert "/ext/tms/" + "app" == APP;
    assert Deletions(files[1]) == [];
    assert AllDeletions(files, 0) == [];
    assert AllDeletions(files, 1) == AllDeletions(files, 0) + Deletions(files[0]);
    assert AllDeletions(files, 2) == AllDeletions(files, 1) + Deletions(files[1]);
  }

  /** A complete file is deleted, and the record, whose deletion fails, still says that it is complete: false,
      though no file is half-way there. When the server offers the same versions again, that record takes over,
      and it has nothing left to fetch. */
  lemma LeftBehind()
    ensures RecordOk(Plainly, Downloaded("abcd"), WHOLE.data) && LeftFalse(UNDELETED, 0, Downloaded("abcd"))
    ensures !DiskOk(Plainly, Disk(map[], WHOLE.saved)) && !Lost(Disk(map[], WHOLE.saved))
    ensures Source(Offered("abcd"), WHOLE.saved) == Downloaded("abcd")
    ensures !Complete(Plainly, map[], Downloaded("abcd").files[0])
  {
    hide AllDeletions, Deletions;
    OldChecksumIsKept();
    var s := Downloaded("abcd");
    OneDeletion(s);
    assert AllDeletions(s.files, s.cur + 1)[0] == APP;
    assert Powered(UNDELETED, 0, 0) && TakesEffect(UNDELETED(0));
    assert !TakesEffect(UNDELETED(1));
    assert Path(s.files[0]) == APP;
    assert Relies(s, APP);
    assert !FileOk(Plainly, s, map[], 0);
  }

  lemma HalfIsTrue()
    ensures RecordOk(Plainly, HalfDone("ab"), HALF.data) && Inv(Plainly, HalfDone("ab"), HALF)
    ensures InStep(HalfDone("ab"), HALF) && Fresh(Offered("abcd")) && SameVersions(Offered("abcd"), HalfDone("ab"))
  {
    assert Path(HalfDone("ab").files[0]) == APP;
    assert "ab"[..2] == "ab";
    assert FileOk(Plainly, HalfDone("ab"), HALF.data, 0);
  }

  /** All that leaves a false record, at concrete values: the second half is wrong, the file is deleted, and
      the third flash call of the three fails. The record still says that two bytes are there. */
  lemma FalseRecord()
    ensures Inv(Plainly, HalfDone("ab"), HALF) && InStep(HalfDone("ab"), HALF)
    ensures Breaks(Plainly, UNSAVED, 0, HalfDone("ab"), HALF.saved, "xx")
    ensures Lost(Disk(HALF.data - {APP}, HALF.saved)) && !DiskOk(Plainly, Disk(HALF.data - {APP}, HALF.saved))
  {
    HalfIsTrue();
    assert ("ab" + "xx")[2] == 'x' && "abcd"[2] == 'c';
    assert Path(HalfDone("ab").files[0]) == APP;
    assert !FileOk(Plainly, HalfDone("ab"), HALF.data - {APP}, 0);
  }

  /** The boot after that, at the same values: the record takes over, the second half comes again and is right
      this time, and flash shows it behind two bytes that were never written. By the hash of "abcd" the file
      counts as complete, and it is not. */
  lemma HoleIsComplete()
    ensures Source(Offered("abcd"), HALF.saved) == HalfDone("ab")
    ensures Advanced(Plainly, HalfDone("ab"), "cd", Downloaded("abcd"))
    ensures Shadow(map[APP := "??cd"], map[APP := "abcd"], APP, 2, {}, '?') && Overlay("ab", 2, "cd") == "abcd"
    ensures MarkedWithHole(Plainly, map[APP := "??cd"], Downloaded("abcd").files[0], HalfDone("ab").files[0], '?')
    ensures !Complete(Plainly, map[APP := "??cd"], Downloaded("abcd").files[0])
  {
    HalfIsTrue();
    assert "ab"[..2] == "ab" && "abcd"[2..] == "cd" == "??cd"[2..] && "ab" + "cd" == "abcd" && "abcd"[0] != "??cd"[0];
    var now := Downloaded("abcd").files[0];
    assert Path(now) == APP && Stored(map[APP := "??cd"], now) == "??cd" && "??cd"[2..4] == "cd"
           && "??cd"[..4] == "??cd";
    assert Hashed(Plainly, "abcd", "??cd", 2, now);
    assert Downloaded("abcd").files == HalfDone("ab").files[0 := now];
  }
}
