/** What a caller of the file system sees from one call to the next (`kernel/src/vfs.rs`). */
module VfsCalls {
  import opened Words
  import opened Ramdisk
  import opened Vfs

  /** `i` is the least index of an entry called `path`. */
  ghost predicate FirstNamed(entries: seq<Entry>, path: Text, i: nat) {
    i < |entries| && entries[i].name == path && forall j :: 0 <= j < i ==> entries[j].name != path
  }

  ghost predicate Named(entries: seq<Entry>, path: Text) {
    exists e :: e in entries && e.name == path
  }

  lemma FindIff(entries: seq<Entry>, path: Text)
    ensures Find(entries, path).Some? <==> Named(entries, path)
    ensures forall i: nat :: FirstNamed(entries, path, i) <==> Find(entries, path) == Some(i)
  {
    hide FindFrom;
    if Find(entries, path).Some? {
      assert entries[Find(entries, path).value] in entries;
    }
  }

  // ---- unlink ----

  /** `unlink` succeeds exactly when an entry has the name. It removes the first such entry and keeps the others in
      their order, and closes exactly the descriptors of that name. */
  lemma UnlinkRemoves(fs: Fs, path: Text)
    ensures var (fs', ok) := Unlink(fs, path);
            && (ok <==> Named(fs.entries, path)) && (!ok ==> fs' == fs) && fs'.cwd == fs.cwd
            && (forall i :: FirstNamed(fs.entries, path, i) ==>
                  && |fs'.entries| == |fs.entries| - 1
                  && forall k :: 0 <= k < |fs'.entries| ==> fs'.entries[k] == fs.entries[if k < i then k else k + 1])
            && |fs'.files| == |fs.files|
            && (ok ==> forall k :: 0 <= k < |fs.files| ==>
                  fs'.files[k] == if fs.files[k].Some? && fs.files[k].value.name == path then None else fs.files[k])
  {
    hide Find, FirstNamed;
    FindIff(fs.entries, path);
  }

  /** After `unlink` the name can be opened exactly as far as there was a second entry so called. */
  lemma UnlinkThenOpen(fs: Fs, path: Text, i: nat)
    requires Inv(fs) && FirstNamed(fs.entries, path, i)
    ensures (forall j :: i < j < |fs.entries| ==> fs.entries[j].name != path) ==>
              Open(Unlink(fs, path).0, path).1 == None
    ensures (exists j :: i < j < |fs.entries| && fs.entries[j].name == path) ==>
              Named(Unlink(fs, path).0.entries, path)
  {
    hide Find;
    var fs' := Unlink(fs, path).0;
    UnlinkRemoves(fs, path);
    FindIff(fs'.entries, path);
    if j :| i < j < |fs.entries| && fs.entries[j].name == path {
      assert fs'.entries[j - 1] in fs'.entries;
    }
  }

  /** A descriptor opened before `unlink` is closed by it: reading, writing, seeking and closing it all fail. */
  lemma UnlinkCloses(fs: Fs, fd: nat, len: nat, buf: seq<Byte>, line: Option<seq<Byte>>)
    requires Inv(fs) && IsOpen(fs, fd)
    ensures var fs' := Unlink(fs, fs.files[fd].value.name).0;
            && Read(fs', fd, len, line) == (fs', None) && Write(fs', fd, buf) == (fs', None)
            && Seek(fs', fd, len) == (fs', false) && Close(fs', fd) == (fs', false)
  {
    hide Find;
    assert Describes(fs.entries, fs.files[fd].value);
  }

  // ---- open and close ----

  /** `close` succeeds exactly on an open descriptor, and then frees that slot and no other: closing it again fails,
      and the next `open` takes it if no lower slot is free. */
  lemma CloseFrees(fs: Fs, fd: nat, path: Text)
    ensures var (fs', ok) := Close(fs, fd);
            && (ok <==> fd < |fs.files| && fs.files[fd].Some?) && (!ok ==> fs' == fs)
            && fs'.entries == fs.entries && fs'.cwd == fs.cwd && |fs'.files| == |fs.files|
            && (forall k :: 0 <= k < |fs.files| && k != fd ==> fs'.files[k] == fs.files[k])
            && Close(fs', fd) == (fs', false)
            && (ok && Named(fs.entries, path) && (forall k :: 0 <= k < fd ==> fs.files[k].Some?) ==>
                  Open(fs', path).1 == Some(fd))
  {
    hide Find;
    FindIff(fs.entries, path);
  }

  /** A file that is opened and closed again leaves the file system as it was. */
  lemma OpenThenClose(fs: Fs, path: Text)
    requires Open(fs, path).1.Some?
    ensures Close(Open(fs, path).0, Open(fs, path).1.value) == (fs, true)
  {
    hide Find;
    var fs' := Open(fs, path).0;
    var fd := Open(fs, path).1.value;
    assert fs'.files[fd := None] == fs.files;
  }

  /** A newly opened file is read from its start. */
  lemma OpenThenRead(fs: Fs, path: Text, len: nat)
    requires Open(fs, path).1.Some? && path != TTY && Contents(fs, path).Some?
    ensures var (fs', fd) := Open(fs, path);
            var data := Contents(fs, path).value;
            Read(fs', fd.value, len, None).1 == Some(data[..if len < |data| then len else |data|])
  {
    hide Find;
  }

  // ---- write and seek ----

  /** Which calls can change what a name holds: a write to a descriptor of that name, `unlink` and `mkdir` of it, and
      filling the file system from a RAM disk. */
  predicate Concerns(fs: Fs, c: Call, name: Text) {
    match c
    case CWrite(fd, _) => IsOpen(fs, fd) && fs.files[fd].value.name == name
    case CUnlink(path) => path == name
    case CMkdir(path) => path == name
    case CInit(_) => true
    case _ => false
  }

  /** No other call changes whether an entry of the name exists, or its contents. */
  lemma OtherFilesUnchanged(fs: Fs, c: Call, name: Text)
    requires Inv(fs) && !Concerns(fs, c, name)
    ensures Contents(Step(fs, c), name) == Contents(fs, name)
    ensures Named(Step(fs, c).entries, name) <==> Named(fs.entries, name)
  {
    hide Find, FreeSlot, ValidUtf8, Named, Write;
    FindIff(fs.entries, name);
    FindIff(Step(fs, c).entries, name);
    match c
    case CMkdir(path) => MkdirOther(fs, path, name);
    case CUnlink(path) =>
      if Find(fs.entries, path).Some? {
        FindRemove(fs.entries, Find(fs.entries, path).value, name);
      }
    case CWrite(fd, buf) => WriteOther(fs, fd, buf, name);
    case _ =>
  }

  lemma WriteOther(fs: Fs, fd: nat, buf: seq<Byte>, name: Text)
    requires !Concerns(fs, CWrite(fd, buf), name)
    ensures Find(Write(fs, fd, buf).0.entries, name) == Find(fs.entries, name)
    ensures Contents(Write(fs, fd, buf).0, name) == Contents(fs, name)
  {
    hide Find, ValidUtf8, Appended, TTY;
    if IsOpen(fs, fd) {
      var i := Find(fs.entries, fs.files[fd].value.name);
      if i.Some? && fs.entries[i.value].data.Some? {
        var data := fs.entries[i.value].data.value;
        var e := fs.entries[i.value].(data := Some(Appended(data, fs.files[fd].value.offset, buf)));
        FindUpdate(fs.entries, i.value, e, name);
      }
    }
  }

  lemma MkdirOther(fs: Fs, path: Text, name: Text)
    requires path != name
    ensures Find(Mkdir(fs, path).0.entries, name) == Find(fs.entries, name)
  {
    if Find(fs.entries, name).Some? {
      FindAppend(fs.entries, [Entry(path, Directory, Some([]))], name);
    }
  }

  /** A write gives the number of bytes written and moves the descriptor past them. The file keeps its old bytes, and
      the new ones come last, after zeros up to the old offset. */
  lemma WriteAdvances(fs: Fs, fd: nat, buf: seq<Byte>)
    requires OnFile(fs, fd)
    ensures var (fs', r) := Write(fs, fd, buf);
            var data, at := FileData(fs, fd), fs.files[fd].value.offset;
            var start := if at > |data| then at else |data|;
            && r == Some(|buf|) && OnFile(fs', fd)
            && fs'.files[fd].value == fs.files[fd].value.(offset := at + |buf|)
            && |FileData(fs', fd)| == start + |buf|
            && forall k :: 0 <= k < start + |buf| ==>
                 FileData(fs', fd)[k] == if k < |data| then data[k] else if k < start then 0 else buf[k - start]
  {
    hide Find;
    var i := Find(fs.entries, fs.files[fd].value.name).value;
    var e := fs.entries[i].(data := Some(Appended(fs.entries[i].data.value, fs.files[fd].value.offset, buf)));
    FindUpdate(fs.entries, i, e, fs.files[fd].value.name);
  }

  /** Reading right after a write: nothing is left when the write was at or past the end, and otherwise what lies
      `|buf|` bytes on. */
  lemma WriteThenRead(fs: Fs, fd: nat, buf: seq<Byte>, len: nat)
    requires OnFile(fs, fd)
    ensures var fs', at := Write(fs, fd, buf).0, fs.files[fd].value.offset;
            && OnFile(fs', fd) && Read(fs', fd, len, None).1 == Some(FromOffset(FileData(fs', fd), at + |buf|, len))
            && (at >= |FileData(fs, fd)| ==> Read(fs', fd, len, None).1 == Some([]))
  {
    hide Read, Write, Contents, FileData, TTY, OnFile;
    WriteAdvances(fs, fd, buf);
    ReadAdvances(Write(fs, fd, buf).0, fd, len);
  }

  /** Two writes at the end of a file are one write of both. */
  lemma WritesConcatenate(fs: Fs, fd: nat, a: seq<Byte>, b: seq<Byte>)
    requires OnFile(fs, fd) && fs.files[fd].value.offset >= |FileData(fs, fd)|
    ensures Write(Write(fs, fd, a).0, fd, b).0 == Write(fs, fd, a + b).0
  {
    hide Find, TTY;
    var d := fs.files[fd].value;
    var i := Find(fs.entries, d.name).value;
    var data := fs.entries[i].data.value;
    var e := fs.entries[i].(data := Some(Appended(data, d.offset, a)));
    FindUpdate(fs.entries, i, e, d.name);
    assert Appended(data, d.offset, a) + b == Appended(data, d.offset, a + b);
    var one, two := Write(fs, fd, a + b).0, Write(Write(fs, fd, a).0, fd, b).0;
    assert one.entries == two.entries && one.files == two.files;
  }

  /** `seek` succeeds exactly on an open descriptor, and the next read starts at the new offset. */
  lemma SeekThenRead(fs: Fs, fd: nat, offset: nat, len: nat)
    ensures var (fs', ok) := Seek(fs, fd, offset);
            && (ok <==> fd < |fs.files| && fs.files[fd].Some?) && (!ok ==> fs' == fs)
            && (OnFile(fs, fd) ==> ok && Read(fs', fd, len, None).1 == Some(FromOffset(FileData(fs, fd), offset, len)))
  {
    hide Find;
  }

  // ---- The terminal ----

  /** The terminal: a read gives the front of the waiting line, a write all or nothing, and neither moves anything. */
  lemma TerminalKept(fs: Fs, fd: nat, len: nat, line: seq<Byte>, buf: seq<Byte>)
    requires IsOpen(fs, fd) && fs.files[fd].value.name == [0x74, 0x74, 0x79]
    ensures Read(fs, fd, len, Some(line)) == (fs, Some(if len < |line| then line[..len] else line))
    ensures Read(fs, fd, len, None) == (fs, Some([]))
    ensures Write(fs, fd, buf) == (fs, if ValidUtf8(buf) then Some(|buf|) else None)
  {
    assert len >= |line| ==> line[..|line|] == line;
  }

  // ---- Directories ----

  /** `mkdir` succeeds exactly when no entry has the name. The new directory can be opened and changed into, and is an
      empty file to readers. */
  lemma MkdirAdds(fs: Fs, path: Text, len: nat)
    requires path != TTY
    ensures var (fs', ok) := Mkdir(fs, path);
            && (ok <==> !Named(fs.entries, path)) && (!ok ==> fs' == fs) && fs'.files == fs.files && fs'.cwd == fs.cwd
            && fs.entries <= fs'.entries && (ok ==> |fs'.entries| == |fs.entries| + 1 && Named(fs'.entries, path))
            && (ok ==> Chdir(fs', path) == (fs'.(cwd := path), true) && !Mkdir(fs', path).1)
            && (ok && Open(fs', path).1.Some? ==>
                  var (fs2, fd) := Open(fs', path);
                  fs2.files[fd.value].value.ftype == Directory && Read(fs2, fd.value, len, None).1 == Some([]))
  {
    hide Find;
    FindIff(fs.entries, path);
    var fs' := Mkdir(fs, path).0;
    FindIff(fs'.entries, path);
    if !Named(fs.entries, path) {
      var last := fs'.entries[|fs.entries|];
      assert last in fs'.entries && last.name == path && last.ftype == Directory;
      FindIs(fs'.entries, path, |fs.entries|);
    }
  }

  /** `chdir` succeeds exactly when some entry of the name is a directory, and changes the working directory alone. A
      directory just made and removed again cannot be changed into. */
  lemma ChdirIff(fs: Fs, path: Text)
    ensures Chdir(fs, path).1 <==> exists e :: e in fs.entries && e.name == path && e.ftype == Directory
    ensures Chdir(fs, path).0 == if Chdir(fs, path).1 then Fs(fs.entries, fs.files, path) else fs
    ensures Mkdir(fs, path).1 ==> !Chdir(Unlink(Mkdir(fs, path).0, path).0, path).1
  {
    hide Find;
    if e :| e in fs.entries && e.name == path && e.ftype == Directory {
      var i :| 0 <= i < |fs.entries| && fs.entries[i] == e;
    }
    if Mkdir(fs, path).1 {
      var fs1 := Mkdir(fs, path).0;
      FindIs(fs1.entries, path, |fs.entries|);
      assert Unlink(fs1, path).0.entries == fs.entries;
    }
  }

  // ---- At boot ----

  /** The file system after it is filled from a RAM disk: sixteen free descriptors, the working directory `/`, the
      entries `.`, `dev`, `null` and `tty` without data, and then the files in their order. */
  lemma BootState(files: seq<File>)
    ensures var fs := InitFrom(New(), files);
            && fs.cwd == [0x2F] && |fs.files| == 16 && (forall k :: 0 <= k < 16 ==> fs.files[k] == None)
            && |fs.entries| == 4 + |files|
            && fs.entries[0] == Entry([0x2E], Directory, None)
            && fs.entries[1] == Entry([0x64, 0x65, 0x76], Directory, None)
            && fs.entries[2] == Entry([0x6E, 0x75, 0x6C, 0x6C], Device, None)
            && fs.entries[3] == Entry([0x74, 0x74, 0x79], Device, None)
            && forall i :: 0 <= i < |files| ==> fs.entries[4 + i] == Entry(files[i].name, Regular, Some(files[i].data))
  {
    var fs := InitFrom(New(), files);
    assert fs.entries == DEFAULTS + Loaded(files);
  }

  /** A file of the RAM disk can be opened and read at once, unless an earlier entry has its name. */
  lemma BootRead(files: seq<File>, i: nat, len: nat)
    requires i < |files| && forall j :: 0 <= j < i ==> files[j].name != files[i].name
    requires files[i].name != [0x2E] && files[i].name != [0x64, 0x65, 0x76]
    requires files[i].name != [0x6E, 0x75, 0x6C, 0x6C] && files[i].name != [0x74, 0x74, 0x79]
    ensures var (fs, fd) := Open(InitFrom(New(), files), files[i].name);
            && fd == Some(0)
            && Read(fs, 0, len, None).1 == Some(files[i].data[..if len < |files[i].data| then len else |files[i].data|])
  {
    hide Find, Read, Contents, FreeSlot;
    var fs := InitFrom(New(), files);
    BootState(files);
    FindIs(fs.entries, files[i].name, 4 + i);
    FirstFree(fs);
    FileContents(fs, files[i].name, 4 + i);
    OpenThenRead(fs, files[i].name, len);
  }

  lemma FirstFree(fs: Fs)
    requires |fs.files| > 0 && fs.files[0] == None
    ensures FreeSlot(fs.files, 0) == Some(0)
  {}

  lemma FileContents(fs: Fs, name: Text, i: nat)
    requires i < |fs.entries| && Find(fs.entries, name) == Some(i)
    ensures Contents(fs, name) == fs.entries[i].data
  {}
}
