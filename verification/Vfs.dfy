/** The in-memory file system (`kernel/src/vfs.rs`). */
module Vfs {
  import opened Words
  import opened Ramdisk

  type Text = seq<Byte>

  const MAX_OPEN_FILES: nat := 16
  const TTY: Text := [0x74, 0x74, 0x79]

  datatype FileType = Regular | Directory | Device | Pipe

  datatype Entry = Entry(name: Text, ftype: FileType, data: Option<seq<Byte>>)

  datatype Descriptor = Descriptor(name: Text, ftype: FileType, offset: nat)

  /** The directory, the open files and the working directory. */
  datatype Fs = Fs(entries: seq<Entry>, files: seq<Option<Descriptor>>, cwd: Text)

  // ---- Searches ----

  /** The first entry called `name`. */
  function Find(entries: seq<Entry>, name: Text): (i: Option<nat>)
    ensures i.Some? ==>
              i.value < |entries| && entries[i.value].name == name
              && forall j :: 0 <= j < i.value ==> entries[j].name != name
    ensures i.None? ==> forall j :: 0 <= j < |entries| ==> entries[j].name != name
  {
    FindFrom(entries, name, 0)
  }

  function FindFrom(entries: seq<Entry>, name: Text, from: nat): (i: Option<nat>)
    requires from <= |entries| && forall j :: 0 <= j < from ==> entries[j].name != name
    ensures i.Some? ==>
              i.value < |entries| && entries[i.value].name == name
              && forall j :: 0 <= j < i.value ==> entries[j].name != name
    ensures i.None? ==> forall j :: 0 <= j < |entries| ==> entries[j].name != name
    decreases |entries| - from
  {
    if from == |entries| then None else if entries[from].name == name then Some(from)
      else FindFrom(entries, name, from + 1)
  }

  /** The lowest free slot. */
  function FreeSlot(files: seq<Option<Descriptor>>, from: nat): (j: Option<nat>)
    requires from <= |files| && forall k :: 0 <= k < from ==> files[k].Some?
    ensures j.Some? ==> j.value < |files| && files[j.value].None? && forall k :: 0 <= k < j.value ==> files[k].Some?
    ensures j.None? ==> forall k :: 0 <= k < |files| ==> files[k].Some?
    decreases |files| - from
  {
    if from == |files| then None else if files[from].None? then Some(from) else FreeSlot(files, from + 1)
  }

  predicate IsOpen(fs: Fs, fd: nat) {
    fd < |fs.files| && fs.files[fd].Some?
  }

  // ---- Operations ----

  function Open(fs: Fs, path: Text): (Fs, Option<nat>) {
    var i := Find(fs.entries, path);
    var j := FreeSlot(fs.files, 0);
    if i.None? || j.None? then (fs, None)
    else (fs.(files := fs.files[j.value := Some(Descriptor(path, fs.entries[i.value].ftype, 0))]), j)
  }

  function Close(fs: Fs, fd: nat): (Fs, bool) {
    if IsOpen(fs, fd) then (fs.(files := fs.files[fd := None]), true) else (fs, false)
  }

  function Least(a: nat, b: nat): nat {
    if a <= b then a else b
  }

  /** `read` into a buffer of `len` bytes: the bytes read. `line` is what the terminal has to offer. */
  function Read(fs: Fs, fd: nat, len: nat, line: Option<seq<Byte>>): (Fs, Option<seq<Byte>>) {
    if !IsOpen(fs, fd) then (fs, None)
    else
      var d := fs.files[fd].value;
      if d.name == TTY then (fs, Some(if line.Some? then line.value[..Least(len, |line.value|)] else []))
      else
        var i := Find(fs.entries, d.name);
        if i.None? || fs.entries[i.value].data.None? then (fs, None)
        else
          var data := fs.entries[i.value].data.value;
          if d.offset >= |data| then (fs, Some([]))
          else
            var n := Least(len, |data| - d.offset);
            (fs.(files := fs.files[fd := Some(d.(offset := d.offset + n))]), Some(data[d.offset..d.offset + n]))
  }

  /** A file's data after a write at `offset`: always appended at the end, after zeros up to the offset. */
  function Appended(data: seq<Byte>, offset: nat, buf: seq<Byte>): seq<Byte> {
    (if offset > |data| then data + Zeros(offset - |data|) else data) + buf
  }

  function Write(fs: Fs, fd: nat, buf: seq<Byte>): (Fs, Option<nat>) {
    if !IsOpen(fs, fd) then (fs, None)
    else
      var d := fs.files[fd].value;
      if d.name == TTY then (fs, if ValidUtf8(buf) then Some(|buf|) else None)
      else
        var i := Find(fs.entries, d.name);
        if i.None? || fs.entries[i.value].data.None? then (fs, None)
        else
          var e := fs.entries[i.value];
          (fs.(entries := fs.entries[i.value := e.(data := Some(Appended(e.data.value, d.offset, buf)))],
               files := fs.files[fd := Some(d.(offset := d.offset + |buf|))]), Some(|buf|))
  }

  function Seek(fs: Fs, fd: nat, offset: nat): (Fs, bool) {
    if IsOpen(fs, fd) then (fs.(files := fs.files[fd := Some(fs.files[fd].value.(offset := offset))]), true)
      else (fs, false)
  }

  function Mkdir(fs: Fs, path: Text): (Fs, bool) {
    if Find(fs.entries, path).Some? then (fs, false)
    else (fs.(entries := fs.entries + [Entry(path, Directory, Some([]))]), true)
  }

  function CloseAll(files: seq<Option<Descriptor>>, path: Text): (r: seq<Option<Descriptor>>)
    ensures |r| == |files|
    ensures forall k :: 0 <= k < |files| ==>
              r[k] == if files[k].Some? && files[k].value.name == path then None else files[k]
  {
    seq(|files|, k requires 0 <= k < |files| =>
      if files[k].Some? && files[k].value.name == path then None else files[k])
  }

  function Unlink(fs: Fs, path: Text): (Fs, bool) {
    var i := Find(fs.entries, path);
    if i.None? then (fs, false)
    else (fs.(entries := fs.entries[..i.value] + fs.entries[i.value + 1..], files := CloseAll(fs.files, path)), true)
  }

  function Chdir(fs: Fs, path: Text): (Fs, bool) {
    if exists i :: 0 <= i < |fs.entries| && fs.entries[i].name == path && fs.entries[i].ftype == Directory
    then (fs.(cwd := path), true) else (fs, false)
  }

  const DEFAULTS: seq<Entry> := [
    Entry([0x2E], Directory, None), Entry([0x64, 0x65, 0x76], Directory, None),
    Entry([0x6E, 0x75, 0x6C, 0x6C], Device, None), Entry(TTY, Device, None)]

  function Loaded(files: seq<File>): (es: seq<Entry>)
    ensures |es| == |files|
            && forall i :: 0 <= i < |files| ==> es[i] == Entry(files[i].name, Regular, Some(files[i].data))
  {
    seq(|files|, i requires 0 <= i < |files| => Entry(files[i].name, Regular, Some(files[i].data)))
  }

  /** `init_from_ramdisk`, with the parsed files. */
  function InitFrom(fs: Fs, files: seq<File>): Fs {
    fs.(entries := fs.entries + DEFAULTS + Loaded(files))
  }

  datatype Call =
    | COpen(path: Text) | CClose(fd: nat) | CRead(fd: nat, len: nat, line: Option<seq<Byte>>)
    | CWrite(fd: nat, buf: seq<Byte>) | CSeek(fd: nat, offset: nat) | CMkdir(path: Text)
    | CUnlink(path: Text) | CChdir(path: Text) | CInit(files: seq<File>)

  function Step(fs: Fs, c: Call): Fs {
    match c
    case COpen(path) => Open(fs, path).0
    case CClose(fd) => Close(fs, fd).0
    case CRead(fd, len, line) => Read(fs, fd, len, line).0
    case CWrite(fd, buf) => Write(fs, fd, buf).0
    case CSeek(fd, offset) => Seek(fs, fd, offset).0
    case CMkdir(path) => Mkdir(fs, path).0
    case CUnlink(path) => Unlink(fs, path).0
    case CChdir(path) => Chdir(fs, path).0
    case CInit(files) => InitFrom(fs, files)
  }

  function New(): Fs {
    Fs([], seq(MAX_OPEN_FILES, _ => None), [0x2F])
  }

  // ---- Invariant ----

  /** Every open descriptor names an existing entry and carries the type of the first entry so called. */
  ghost predicate Inv(fs: Fs) {
    && |fs.files| == MAX_OPEN_FILES
    && forall j :: 0 <= j < MAX_OPEN_FILES && fs.files[j].Some? ==> Describes(fs.entries, fs.files[j].value)
  }

  ghost predicate Describes(entries: seq<Entry>, d: Descriptor) {
    Find(entries, d.name).Some? && entries[Find(entries, d.name).value].ftype == d.ftype
  }

  /** `i` is the first index of `name`. */
  lemma FindIs(entries: seq<Entry>, name: Text, i: nat)
    requires i < |entries| && entries[i].name == name && forall j :: 0 <= j < i ==> entries[j].name != name
    ensures Find(entries, name) == Some(i)
  {}

  lemma FindAppend(entries: seq<Entry>, more: seq<Entry>, name: Text)
    requires Find(entries, name).Some?
    ensures Find(entries + more, name) == Find(entries, name)
  {
    FindIs(entries + more, name, Find(entries, name).value);
  }

  lemma FindUpdate(entries: seq<Entry>, i: nat, e: Entry, name: Text)
    requires i < |entries| && e.name == entries[i].name
    ensures Find(entries[i := e], name) == Find(entries, name)
  {
    if Find(entries, name).Some? {
      FindIs(entries[i := e], name, Find(entries, name).value);
    }
  }

  lemma FindRemove(entries: seq<Entry>, i: nat, name: Text)
    requires i < |entries| && entries[i].name != name
    ensures var less := entries[..i] + entries[i + 1..];
            match Find(entries, name)
            case None => Find(less, name) == None
            case Some(k) => Find(less, name) == Some(if k < i then k else k - 1)
  {
    var less := entries[..i] + entries[i + 1..];
    match Find(entries, name)
    case None =>
    case Some(k) => FindIs(less, name, if k < i then k else k - 1);
  }

  lemma UnlinkKeeps(fs: Fs, path: Text)
    requires Inv(fs)
    ensures Inv(Unlink(fs, path).0)
  {
    hide Find;
    var i := Find(fs.entries, path);
    if i.Some? {
      var fs' := Unlink(fs, path).0;
      forall j | 0 <= j < MAX_OPEN_FILES && fs'.files[j].Some? ensures Describes(fs'.entries, fs'.files[j].value) {
        FindRemove(fs.entries, i.value, fs.files[j].value.name);
      }
    }
  }

  lemma WriteKeeps(fs: Fs, fd: nat, buf: seq<Byte>)
    requires Inv(fs)
    ensures Inv(Write(fs, fd, buf).0)
  {
    hide Find, ValidUtf8, Appended;
    if IsOpen(fs, fd) && fs.files[fd].value.name != TTY {
      var i := Find(fs.entries, fs.files[fd].value.name);
      if i.Some? && fs.entries[i.value].data.Some? {
        var data := fs.entries[i.value].data.value;
        var e := fs.entries[i.value].(data := Some(Appended(data, fs.files[fd].value.offset, buf)));
        forall j | 0 <= j < MAX_OPEN_FILES && fs.files[j].Some?
          ensures Describes(fs.entries[i.value := e], fs.files[j].value) {
          FindUpdate(fs.entries, i.value, e, fs.files[j].value.name);
        }
      }
    }
  }

  /** Every call keeps the invariant. */
  lemma StepKeeps(fs: Fs, c: Call)
    requires Inv(fs)
    ensures Inv(Step(fs, c))
  {
    hide Find, FreeSlot, ValidUtf8;
    match c
    case CWrite(fd, buf) => WriteKeeps(fs, fd, buf);
    case CUnlink(path) => UnlinkKeeps(fs, path);
    case CMkdir(path) => AppendKeeps(fs, [Entry(path, Directory, Some([]))]);
    case CInit(files) =>
      AppendKeeps(fs, DEFAULTS + Loaded(files));
      assert fs.entries + (DEFAULTS + Loaded(files)) == fs.entries + DEFAULTS + Loaded(files);
    case _ =>
  }

  lemma AppendKeeps(fs: Fs, more: seq<Entry>)
    requires Inv(fs)
    ensures Inv(fs.(entries := fs.entries + more))
  {
    hide Find;
    forall j | 0 <= j < MAX_OPEN_FILES && fs.files[j].Some? ensures Describes(fs.entries + more, fs.files[j].value) {
      FindAppend(fs.entries, more, fs.files[j].value.name);
    }
  }

  ghost predicate Run(trace: seq<Fs>, calls: seq<Call>) {
    |trace| == |calls| + 1 && forall i :: 0 <= i < |calls| ==> trace[i + 1] == Step(trace[i], calls[i])
  }

  /** Over every run from an empty file system, each open descriptor names an existing entry and
      carries the type of the first one so called. */
  lemma {:induction false} RunInv(trace: seq<Fs>, calls: seq<Call>, i: nat)
    requires Run(trace, calls) && trace[0] == New() && i <= |calls|
    ensures Inv(trace[i])
  {
    hide Step;
    if i > 0 {
      RunInv(trace, calls, i - 1);
      StepKeeps(trace[i - 1], calls[i - 1]);
    }
  }

  // ---- Descriptors do not interfere ----

  predicate OnDescriptor(c: Call, k: nat) {
    match c
    case CClose(fd) => fd == k
    case CRead(fd, _, _) => fd == k
    case CWrite(fd, _) => fd == k
    case CSeek(fd, _) => fd == k
    case _ => false
  }

  /** A call on one descriptor leaves every other open one alone; only `unlink` closes descriptors it was
      not given, and exactly those of the removed name. */
  lemma OthersUnchanged(fs: Fs, c: Call, k: nat)
    requires Inv(fs) && IsOpen(fs, k) && !OnDescriptor(c, k)
    ensures Step(fs, c).files[k] ==
            if c.CUnlink? && c.path == fs.files[k].value.name then None else fs.files[k]
  {
    hide Find, ValidUtf8;
    if c.CUnlink? && c.path == fs.files[k].value.name {
      assert Describes(fs.entries, fs.files[k].value);
    }
  }

  lemma OpenLowest(fs: Fs, path: Text)
    requires Inv(fs)
    ensures var (fs', r) := Open(fs, path);
            && (r.Some? <==> Find(fs.entries, path).Some? && exists k :: 0 <= k < MAX_OPEN_FILES && fs.files[k].None?)
            && (r.Some? ==>
                  r.value < MAX_OPEN_FILES && fs.files[r.value].None?
                  && (forall k :: 0 <= k < r.value ==> fs.files[k].Some?)
                  && fs'.files[r.value]
                  == Some(Descriptor(path, fs.entries[Find(fs.entries, path).value].ftype, 0)))
  {
    hide Find;
  }

  // ---- Contents ----

  /** The data of the first entry called `name`. */
  function Contents(fs: Fs, name: Text): Option<seq<Byte>> {
    match Find(fs.entries, name)
    case None => None
    case Some(i) => fs.entries[i].data
  }

  /** Until a file is unlinked its old contents are a prefix of its new contents. */
  lemma StepGrows(fs: Fs, c: Call, name: Text)
    requires Inv(fs) && Contents(fs, name).Some? && c != CUnlink(name)
    ensures Contents(Step(fs, c), name).Some? && Contents(fs, name).value <= Contents(Step(fs, c), name).value
  {
    hide Find, FreeSlot, ValidUtf8;
    match c
    case CMkdir(path) => FindAppend(fs.entries, [Entry(path, Directory, Some([]))], name);
    case CInit(files) =>
      FindAppend(fs.entries, DEFAULTS + Loaded(files), name);
      assert fs.entries + (DEFAULTS + Loaded(files)) == fs.entries + DEFAULTS + Loaded(files);
    case CUnlink(path) =>
      if Find(fs.entries, path).Some? {
        FindRemove(fs.entries, Find(fs.entries, path).value, name);
      }
    case CWrite(fd, buf) =>
      if IsOpen(fs, fd) {
        var i := Find(fs.entries, fs.files[fd].value.name);
        if i.Some? && fs.entries[i.value].data.Some? {
          var data := fs.entries[i.value].data.value;
          var e := fs.entries[i.value].(data := Some(Appended(data, fs.files[fd].value.offset, buf)));
          FindUpdate(fs.entries, i.value, e, name);
        }
      }
    case _ =>
  }

  lemma {:induction false} RunGrows(trace: seq<Fs>, calls: seq<Call>, name: Text, i: nat, j: nat)
    requires Run(trace, calls) && trace[0] == New() && i <= j <= |calls| && Contents(trace[i], name).Some?
    requires forall k :: i <= k < j ==> calls[k] != CUnlink(name)
    ensures Contents(trace[j], name).Some? && Contents(trace[i], name).value <= Contents(trace[j], name).value
  {
    hide Step, Contents;
    if i < j {
      RunGrows(trace, calls, name, i, j - 1);
      RunInv(trace, calls, j - 1);
      StepGrows(trace[j - 1], calls[j - 1], name);
    }
  }

  // ---- Reading and writing ----

  /** An open descriptor of a file with data, other than the terminal. */
  predicate OnFile(fs: Fs, fd: nat) {
    IsOpen(fs, fd) && fs.files[fd].value.name != TTY && Contents(fs, fs.files[fd].value.name).Some?
  }

  function FileData(fs: Fs, fd: nat): seq<Byte>
    requires OnFile(fs, fd)
  {
    Contents(fs, fs.files[fd].value.name).value
  }

  /** Reads of the given sizes, one after the other. */
  function ReadAll(fs: Fs, fd: nat, sizes: seq<nat>): seq<Byte>
    requires OnFile(fs, fd)
    decreases |sizes|
  {
    if sizes == [] then []
    else
      var (fs', r) := Read(fs, fd, sizes[0], None);
      r.value + ReadAll(fs', fd, sizes[1..])
  }

  function Sum(ns: seq<nat>): nat {
    if ns == [] then 0 else ns[0] + Sum(ns[1..])
  }

  /** The `n` bytes from offset `from` on, as far as the data goes. */
  function FromOffset(data: seq<Byte>, from: nat, n: nat): (r: seq<Byte>)
    ensures |r| == if from >= |data| then 0 else Least(n, |data| - from)
  {
    if from >= |data| then [] else data[from..from + Least(n, |data| - from)]
  }

  lemma FromOffsetJoin(data: seq<Byte>, from: nat, n: nat, k: nat)
    ensures FromOffset(data, from, n) + FromOffset(data, from + |FromOffset(data, from, n)|, k)
            == FromOffset(data, from, n + k)
  {}

  /** Reads of any sizes concatenate to the file from the starting offset on. */
  lemma {:induction false} ReadsConcatenate(fs: Fs, fd: nat, sizes: seq<nat>)
    requires OnFile(fs, fd)
    ensures ReadAll(fs, fd, sizes) == FromOffset(FileData(fs, fd), fs.files[fd].value.offset, Sum(sizes))
    decreases |sizes|
  {
    hide Read, Contents, FileData, FromOffset, TTY;
    if sizes != [] {
      ReadAdvances(fs, fd, sizes[0]);
      ReadsConcatenate(Read(fs, fd, sizes[0], None).0, fd, sizes[1..]);
      FromOffsetJoin(FileData(fs, fd), fs.files[fd].value.offset, sizes[0], Sum(sizes[1..]));
    }
  }

  /** What one read does to the descriptor. */
  lemma ReadAdvances(fs: Fs, fd: nat, len: nat)
    requires OnFile(fs, fd)
    ensures var data, at, fs' := FileData(fs, fd), fs.files[fd].value.offset, Read(fs, fd, len, None).0;
            && OnFile(fs', fd) && FileData(fs', fd) == data
            && fs'.files[fd].value.offset == at + |FromOffset(data, at, len)|
            && Read(fs, fd, len, None).1 == Some(FromOffset(data, at, len))
  {
    hide Find;
  }

  /** What reading `|buf|` bytes gives after writing `buf` and seeking back to where the write began. */
  function ReadBack(fs: Fs, fd: nat, buf: seq<Byte>): Option<seq<Byte>>
    requires OnFile(fs, fd)
  {
    var fs1 := Write(fs, fd, buf).0;
    var fs2 := Seek(fs1, fd, fs.files[fd].value.offset).0;
    Read(fs2, fd, |buf|, None).1
  }

  lemma WriteThenSeek(fs: Fs, fd: nat, buf: seq<Byte>, offset: nat)
    requires OnFile(fs, fd)
    ensures var fs2 := Seek(Write(fs, fd, buf).0, fd, offset).0;
            && OnFile(fs2, fd) && fs2.files[fd].value.offset == offset
            && FileData(fs2, fd) == Appended(FileData(fs, fd), fs.files[fd].value.offset, buf)
  {
    hide Find, Appended;
    var i := Find(fs.entries, fs.files[fd].value.name).value;
    var e := fs.entries[i].(data := Some(Appended(fs.entries[i].data.value, fs.files[fd].value.offset, buf)));
    FindUpdate(fs.entries, i, e, fs.files[fd].value.name);
  }

  lemma AppendedSlices(data: seq<Byte>, at: nat, buf: seq<Byte>)
    requires |data| <= at
    ensures var after := Appended(data, at, buf);
            |after| == at + |buf| && after[at..at + |buf|] == buf && after[|data|..at] == Zeros(at - |data|)
  {
    assert Appended(data, at, buf) == data + Zeros(at - |data|) + buf;
  }

  /** A write at or past the end reads back after seeking, with zeros in the gap. */
  lemma WriteAtEnd(fs: Fs, fd: nat, buf: seq<Byte>)
    requires OnFile(fs, fd) && fs.files[fd].value.offset >= |FileData(fs, fd)|
    ensures ReadBack(fs, fd, buf) == Some(buf)
    ensures var data, at := FileData(fs, fd), fs.files[fd].value.offset;
            var fs2 := Seek(Write(fs, fd, buf).0, fd, |data|).0;
            Read(fs2, fd, at - |data|, None).1 == Some(Zeros(at - |data|))
  {
    hide Find, Read, Write, Seek, Appended, Zeros;
    var data, at := FileData(fs, fd), fs.files[fd].value.offset;
    WriteThenSeek(fs, fd, buf, at);
    WriteThenSeek(fs, fd, buf, |data|);
    var after := Appended(data, at, buf);
    AppendedSlices(data, at, buf);
    ReadAdvances(Seek(Write(fs, fd, buf).0, fd, at).0, fd, |buf|);
    ReadAdvances(Seek(Write(fs, fd, buf).0, fd, |data|).0, fd, at - |data|);
  }

  /** Whatever is written reads back exactly when the descriptor is at or past the end of the file: before the end a
      write appends instead of overwriting. */
  lemma ReadBackIff(fs: Fs, fd: nat)
    requires OnFile(fs, fd)
    ensures (forall buf :: ReadBack(fs, fd, buf) == Some(buf)) <==> fs.files[fd].value.offset >= |FileData(fs, fd)|
  {
    hide Find, ReadBack;
    var data, at := FileData(fs, fd), fs.files[fd].value.offset;
    if at >= |data| {
      forall buf ensures ReadBack(fs, fd, buf) == Some(buf) {
        WriteAtEnd(fs, fd, buf);
      }
    } else {
      var other: Byte := if data[at] == 0 then 1 else 0;
      WriteInside(fs, fd, other);
    }
  }

  lemma WriteInside(fs: Fs, fd: nat, b: Byte)
    requires OnFile(fs, fd) && fs.files[fd].value.offset < |FileData(fs, fd)|
    ensures ReadBack(fs, fd, [b]) == Some([FileData(fs, fd)[fs.files[fd].value.offset]])
  {
    hide Find, Read, Write, Seek;
    var data, at := FileData(fs, fd), fs.files[fd].value.offset;
    WriteThenSeek(fs, fd, [b], at);
    ReadAdvances(Seek(Write(fs, fd, [b]).0, fd, at).0, fd, 1);
    assert (data + [b])[at..at + 1] == [data[at]];
  }

  // ---- The code ----

  /** `copy_from_slice` of as much as both hold. */
  method CopyFront(buf: array<Byte>, bytes: seq<Byte>) returns (len: nat)
    modifies buf
    ensures len == Least(buf.Length, |bytes|) && buf[..len] == bytes[..len] && buf[len..] == old(buf[len..])
  {
    len := Least(buf.Length, |bytes|);
    forall k | 0 <= k < len {
      buf[k] := bytes[k];
    }
  }

  class FileSystem {
    var entries: seq<Entry>
    const openFiles: array<Option<Descriptor>>
    var cwd: Text

    constructor ()
      ensures openFiles.Length == MAX_OPEN_FILES && fresh(openFiles) && State() == New()
    {
      entries := [];
      openFiles := new Option<Descriptor>[MAX_OPEN_FILES](_ => None);
      cwd := [0x2F];
    }

    function State(): Fs
      reads this, openFiles
    {
      Fs(entries, openFiles[..], cwd)
    }

    /** `entries.iter().find` and `position`. */
    method FindEntry(name: Text) returns (i: Option<nat>)
      ensures i == Find(entries, name)
    {
      var k := 0;
      while k < |entries|
        invariant k <= |entries| && forall j :: 0 <= j < k ==> entries[j].name != name
      {
        if entries[k].name == name {
          FindIs(entries, name, k);
          return Some(k);
        }
        k := k + 1;
      }
      return None;
    }

    /** The first matching entry for which a slot is free decides; the slot is the lowest. */
    method OpenFile(path: Text) returns (r: Option<nat>)
      modifies openFiles
      ensures (State(), r) == Open(old(State()), path)
    {
      ghost var fs := State();
      var k := 0;
      while k < |entries|
        invariant k <= |entries| && State() == fs
        invariant (forall j :: 0 <= j < k ==> entries[j].name != path)
                  || (forall j :: 0 <= j < openFiles.Length ==> openFiles[j].Some?)
      {
        if entries[k].name == path {
          var j := 0;
          while j < openFiles.Length
            invariant j <= openFiles.Length && State() == fs && forall i :: 0 <= i < j ==> openFiles[i].Some?
          {
            if openFiles[j].None? {
              FindIs(entries, path, k);
              SlotIs(openFiles[..], j);
              openFiles[j] := Some(Descriptor(path, entries[k].ftype, 0));
              return Some(j);
            }
            j := j + 1;
          }
        }
        k := k + 1;
      }
      assert forall j :: 0 <= j < |fs.files| ==> fs.files[j] == openFiles[j];
      return None;
    }

    method CloseFile(fd: nat) returns (r: bool)
      modifies openFiles
      ensures (State(), r) == Close(old(State()), fd)
    {
      if fd >= openFiles.Length || openFiles[fd].None? {
        return false;
      }
      openFiles[fd] := None;
      return true;
    }

    /** Fills the front of `buf` and returns how much. */
    method ReadFile(fd: nat, buf: array<Byte>, line: Option<seq<Byte>>) returns (r: Option<nat>)
      modifies openFiles, buf
      ensures State() == Read(old(State()), fd, buf.Length, line).0
      ensures match Read(old(State()), fd, buf.Length, line).1
              case None => r == None && buf[..] == old(buf[..])
              case Some(bytes) => r == Some(|bytes|) && |bytes| <= buf.Length && buf[..|bytes|] == bytes
                                  && buf[|bytes|..] == old(buf[|bytes|..])
    {
      if fd >= openFiles.Length || openFiles[fd].None? {
        return None;
      }
      var d := openFiles[fd].value;
      if d.name == TTY {
        if line.None? {
          return Some(0);
        }
        var len := CopyFront(buf, line.value);
        return Some(len);
      }
      var i := FindEntry(d.name);
      if i.None? || entries[i.value].data.None? {
        return None;
      }
      var data := entries[i.value].data.value;
      if d.offset >= |data| {
        return Some(0);
      }
      var len := CopyFront(buf, data[d.offset..]);
      assert data[d.offset..][..len] == data[d.offset..d.offset + len];
      openFiles[fd] := Some(d.(offset := d.offset + len));
      return Some(len);
    }

    method WriteFile(fd: nat, buf: seq<Byte>) returns (r: Option<nat>)
      modifies this, openFiles
      ensures (State(), r) == Write(old(State()), fd, buf)
    {
      if fd >= openFiles.Length || openFiles[fd].None? {
        return None;
      }
      var d := openFiles[fd].value;
      if d.name == TTY {
        return if ValidUtf8(buf) then Some(|buf|) else None;
      }
      var i := FindEntry(d.name);
      if i.None? || entries[i.value].data.None? {
        return None;
      }
      var data := entries[i.value].data.value;
      if d.offset > |data| {
        data := data + Zeros(d.offset - |data|);
      }
      data := data + buf;
      entries := entries[i.value := entries[i.value].(data := Some(data))];
      openFiles[fd] := Some(d.(offset := d.offset + |buf|));
      return Some(|buf|);
    }

    method SeekFile(fd: nat, offset: nat) returns (r: bool)
      modifies openFiles
      ensures (State(), r) == Seek(old(State()), fd, offset)
    {
      if fd >= openFiles.Length || openFiles[fd].None? {
        return false;
      }
      openFiles[fd] := Some(openFiles[fd].value.(offset := offset));
      return true;
    }

    method MakeDirectory(path: Text) returns (r: bool)
      modifies this`entries
      ensures (State(), r) == Mkdir(old(State()), path)
    {
      var i := FindEntry(path);
      if i.Some? {
        return false;
      }
      entries := entries + [Entry(path, Directory, Some([]))];
      return true;
    }

    method ChangeDirectory(path: Text) returns (r: bool)
      modifies this`cwd
      ensures (State(), r) == Chdir(old(State()), path)
    {
      var k := 0;
      while k < |entries|
        invariant k <= |entries| && cwd == old(cwd)
        invariant forall j :: 0 <= j < k ==> !(entries[j].name == path && entries[j].ftype == Directory)
      {
        if entries[k].name == path && entries[k].ftype == Directory {
          cwd := path;
          return true;
        }
        k := k + 1;
      }
      return false;
    }

    method UnlinkFile(path: Text) returns (r: bool)
      modifies this`entries, openFiles
      ensures (State(), r) == Unlink(old(State()), path)
    {
      var i := FindEntry(path);
      if i.None? {
        return false;
      }
      ghost var files := openFiles[..];
      entries := entries[..i.value] + entries[i.value + 1..];
      ghost var es := entries;
      var k := 0;
      while k < openFiles.Length
        invariant k <= openFiles.Length && entries == es
        invariant forall j :: 0 <= j < openFiles.Length ==>
                    openFiles[j] == if j < k then CloseAll(files, path)[j] else files[j]
      {
        if openFiles[k].Some? && openFiles[k].value.name == path {
          openFiles[k] := None;
        }
        k := k + 1;
      }
      assert openFiles[..] == CloseAll(files, path);
      return true;
    }

    /** The defaults, then the files of the ramdisk, one entry each. `ok` is false when the parser panics. */
    method InitFromRamdisk(data: seq<Byte>) returns (ok: bool)
      modifies this`entries
      ensures ok <==> !Parse(data, 0).overflow
      ensures State() == InitFrom(old(State()), Parse(data, 0).files)
    {
      var files, overflow := ParseRamdisk(data);
      entries := entries + DEFAULTS;
      ghost var before := entries;
      var k := 0;
      while k < |files|
        invariant k <= |files| && entries == before + Loaded(files)[..k]
      {
        entries := entries + [Entry(files[k].name, Regular, Some(files[k].data))];
        k := k + 1;
      }
      assert Loaded(files)[..|files|] == Loaded(files);
      ok := !overflow;
    }
  }

  lemma SlotIs(files: seq<Option<Descriptor>>, j: nat)
    requires j < |files| && files[j].None? && forall k :: 0 <= k < j ==> files[k].Some?
    ensures FreeSlot(files, 0) == Some(j)
  {}

  /** Booting with a packed image gives exactly the defaults followed by the packed files. */
  lemma BootContents(files: seq<File>)
    requires |PackAll(files)| < TWO_64
    requires forall i :: 0 <= i < |files| ==> ValidUtf8(files[i].name) && KeepsName(files[i].name)
    ensures InitFrom(New(), Parse(PackAll(files), 0).files).entries == DEFAULTS + Loaded(files)
  {
    RoundTrip(files);
    assert New().entries + DEFAULTS == DEFAULTS;
  }
}
