/**
 Walking a path from directory to directory: the kernel's `NameI`, and the two walkers of the
 debuggers, which read the same inodes from the disk but test their types differently.
 */
module Walks {
  import opened Words
  import opened Directories
  import opened Paths

  const ROOTINO := 1

  /** The type bits of an inode's mode, and the entries that its contents read as. */
  datatype Node = Node(mode: nat, entries: seq<DirectoryEntry>) {
    /** `(mode & IFMT) == IFDIR` */
    predicate IsDirectory() {
      mode / 0x2000 % 4 == 2
    }

    /** `(mode & IFMT) == IFBLK` */
    predicate IsBlockDevice() {
      mode / 0x2000 % 4 == 3
    }

    /** `(mode & IFDIR) != 0` */
    predicate HasDirectoryBit() {
      mode / 0x4000 % 2 == 1
    }
  }

  lemma DirectoryBit(n: Node)
    ensures n.HasDirectoryBit() <==> n.IsDirectory() || n.IsBlockDevice()
  {
    var x := n.mode / 0x2000;
    assert n.mode / 0x4000 == x / 2;
    assert x == 4 * (x / 4) + x % 4;
  }

  type Image = map<int, Node>

  function NodeAt(img: Image, ino: int): Node {
    if ino in img then img[ino] else Node(0, [])
  }

  /** Directories name inodes by positive numbers. */
  ghost predicate GoodNumbers(img: Image) {
    forall ino :: ino in img && img[ino].IsDirectory() ==>
      forall k :: 0 <= k < |img[ino].entries| ==> 0 <= img[ino].entries[k].ino < 0x8000_0000
  }

  // The kernel.

  datatype Mode = OPEN | CREATE | DELETE

  /** What `NameI` leaves: an inode, a parent with the entry found or the place for a new one, or an error. */
  datatype Result =
    | Found(ino: int)
    | Parent(dir: int, dent: DirectoryEntry, m_Offset: int)
    | Place(dir: int, name: Name, m_Offset: int)
    | ENOENT
    | ENOTDIR

  function Resolve(img: Image, ino: int, names: seq<Name>, mode: Mode): Result
    decreases |names|
  {
    if names == [] then Found(ino)
    else
      var n := NodeAt(img, ino);
      if !n.IsDirectory() then ENOTDIR
      else
        var k := Find(n.entries, names[0]);
        if k == |n.entries| then
          if mode == CREATE && |names| == 1 then
            Place(ino, names[0], ENTRY_SIZE * if FirstFree(n.entries) < k then FirstFree(n.entries) else k)
          else ENOENT
        else if mode == DELETE && |names| == 1 then Parent(ino, n.entries[k], ENTRY_SIZE * (k + 1))
        else Resolve(img, n.entries[k].ino, names[1..], mode)
  }

  /** Copies one name into `u_dbuf`, filled up with NUL. */
  method CopyName(path: Text, start: nat) returns (u_dbuf: Name, cursor: nat)
    requires start < |path| && path[start] != SLASH
    ensures start < cursor <= |path| && Components(path[start..]) == [u_dbuf] + Components(path[cursor..])
  {
    hide Cut, Components, Pad, WordLen;
    ghost var w := path[start..];
    FirstComponent(w);
    RestOfRest(path, start, WordLen(w));
    PadCut(w[..WordLen(w)]);
    var component;
    component, cursor := TakeWord(path, start);
    var buf: seq<byte> := component;
    while |buf| < DIRSIZ
      invariant |component| <= |buf| <= DIRSIZ && buf == component + seq(|buf| - |component|, _ => 0)
    {
      buf := buf + [0];
    }
    u_dbuf := buf;
    PadIs(component, u_dbuf);
  }

  lemma PadIs(component: Text, name: Name)
    requires |component| <= DIRSIZ && name == component + seq(DIRSIZ - |component|, _ => 0)
    ensures name == Pad(component)
  {
  }

  /** The directory search for a path, character by character and directory by directory. */
  method NameI(img: Image, cdir: int, path: Text, mode: Mode) returns (r: Result)
    ensures var names := Components(path);
            r == if names == [] && mode != OPEN then ENOENT
                 else Resolve(img, if CharAt(path, 0) == SLASH then ROOTINO else cdir, names, mode)
  {
    hide Components;
    var ino := if CharAt(path, 0) == SLASH then ROOTINO else cdir;
    assert path[0..] == path;
    var cursor := SkipSlashes(path, 0);
    NoMoreNames(path, cursor);
    if CharAt(path, cursor) == 0 && mode != OPEN {
      return ENOENT;
    }
    ghost var start := ino;
    while true
      invariant cursor <= |path| && CharAt(path, cursor) != SLASH
      invariant Resolve(img, start, Components(path), mode) == Resolve(img, ino, Components(path[cursor..]), mode)
      decreases |path| - cursor
    {
      NoMoreNames(path, cursor);
      if CharAt(path, cursor) == 0 {
        return Found(ino);
      }
      var n := NodeAt(img, ino);
      if !n.IsDirectory() {
        return ENOTDIR;
      }
      ghost var names := Components(path[cursor..]);
      var u_dbuf;
      u_dbuf, cursor := CopyName(path, cursor);
      cursor := SkipSlashes(path, cursor);
      NoMoreNames(path, cursor);
      assert names[1..] == Components(path[cursor..]);
      var last := CharAt(path, cursor) == 0;
      var k := Find(n.entries, u_dbuf);
      if k == |n.entries| {
        if mode == CREATE && last {
          var free := FirstFree(n.entries);
          return Place(ino, u_dbuf, ENTRY_SIZE * if free < k then free else k);
        }
        return ENOENT;
      }
      if mode == DELETE && last {
        return Parent(ino, n.entries[k], ENTRY_SIZE * (k + 1));
      }
      ino := n.entries[k].ino;
    }
  }

  lemma NoMoreNames(path: Text, cursor: nat)
    requires cursor <= |path| && CharAt(path, cursor) != SLASH
    ensures Components(path[cursor..]) == [] <==> CharAt(path, cursor) == 0
  {
  }

  // The debuggers.

  datatype Option = None | Some(ino: int)

  /** A double word as the `int` that the debuggers take it for. */
  function Signed(w: int): int {
    if w < 0x8000_0000 then w else w - 0x1_0000_0000
  }

  function DebugResolve(img: Image, ino: int, names: seq<Name>): Option
    decreases |names|
  {
    if names == [] then Some(ino)
    else
      var n := NodeAt(img, ino);
      var k := Find(n.entries, names[0]);
      if !n.HasDirectoryBit() || k == |n.entries| || Signed(n.entries[k].ino) <= 0 then None
      else DebugResolve(img, n.entries[k].ino, names[1..])
  }

  /** The loops of `LookupPath` and `lookup_disk_path`. */
  method LookupPath(img: Image, path: Text) returns (r: Option)
    ensures r == DebugResolve(img, ROOTINO, Components(path))
  {
    hide Components, Pad;
    var ino, cursor := ROOTINO, 0;
    assert path[0..] == path;
    var some, component;
    some, component, cursor := ExtractPathComponent(path, 0);
    ghost var names := Components(path);
    while some
      invariant cursor <= |path| && (some ==> |component| <= DIRSIZ)
      invariant names == if some then [Pad(component)] + Components(path[cursor..]) else []
      invariant DebugResolve(img, ROOTINO, Components(path)) == DebugResolve(img, ino, names)
      decreases |path| - cursor, some
    {
      var n := NodeAt(img, ino);
      if !n.HasDirectoryBit() {
        return None;
      }
      var found := false;
      var entryIndex := 0;
      while entryIndex < |n.entries| && !found
        invariant 0 <= entryIndex <= |n.entries| && (found ==> entryIndex > 0)
        invariant forall i :: 0 <= i < (if found then entryIndex - 1 else entryIndex) ==>
                    n.entries[i].ino == 0 || n.entries[i].name != Pad(component)
        invariant found ==> var e := n.entries[entryIndex - 1]; e.ino == ino != 0 && Signed(ino) > 0 && e.name == Pad(component)
        invariant !found ==> n == NodeAt(img, ino)
        decreases |n.entries| - entryIndex
      {
        var e := n.entries[entryIndex];
        entryIndex := entryIndex + 1;
        var same := NameEquals(e.name, component);
        if e.ino == 0 || !same {
          continue;
        }
        FindIs(n.entries, Pad(component), entryIndex - 1);
        if Signed(e.ino) <= 0 {
          return None;
        }
        ino := e.ino;
        found := true;
      }
      FindIs(n.entries, Pad(component), if found then entryIndex - 1 else entryIndex);
      if !found {
        return None;
      }
      names := names[1..];
      assert names == Components(path[cursor..]);
      some, component, cursor := ExtractPathComponent(path, cursor);
    }
    r := Some(ino);
  }

  /** The JSON debugger normalizes the path first. */
  method LookupDiskPath(img: Image, rawPath: Text) returns (r: Option)
    ensures r == DebugResolve(img, ROOTINO, Components(Normal(rawPath)))
  {
    var path := NormalizePath(rawPath);
    r := LookupPath(img, path);
  }

  // How the walkers agree.

  /** The debuggers find a name in a block device and walk on through it. */
  ghost predicate EntersBlockDevice(img: Image, ino: int, names: seq<Name>)
    decreases |names|
  {
    names != [] &&
      var n := NodeAt(img, ino);
      var k := Find(n.entries, names[0]);
      && n.HasDirectoryBit() && k < |n.entries| && Signed(n.entries[k].ino) > 0
      && (n.IsBlockDevice() || EntersBlockDevice(img, n.entries[k].ino, names[1..]))
  }

  /** Whatever the kernel finds, the debuggers find. */
  lemma {:induction false} KernelFindsDebuggerFinds(img: Image, ino: int, names: seq<Name>)
    requires GoodNumbers(img) && Resolve(img, ino, names, OPEN).Found?
    ensures DebugResolve(img, ino, names) == Some(Resolve(img, ino, names, OPEN).ino)
    decreases |names|
  {
    hide Find;
    if names != [] {
      var n := NodeAt(img, ino);
      DirectoryBit(n);
      var k := Find(n.entries, names[0]);
      KernelFindsDebuggerFinds(img, n.entries[k].ino, names[1..]);
    }
  }

  /** What the debuggers find, the kernel finds too, if and only if no block device is entered on the way. */
  lemma {:induction false} DebuggerFindsKernelFinds(img: Image, ino: int, names: seq<Name>)
    requires DebugResolve(img, ino, names).Some?
    ensures Resolve(img, ino, names, OPEN) == Found(DebugResolve(img, ino, names).ino)
            <==> !EntersBlockDevice(img, ino, names)
    ensures EntersBlockDevice(img, ino, names) ==> Resolve(img, ino, names, OPEN) == ENOTDIR
    decreases |names|
  {
    hide Find;
    if names != [] {
      var n := NodeAt(img, ino);
      DirectoryBit(n);
      var k := Find(n.entries, names[0]);
      DebuggerFindsKernelFinds(img, n.entries[k].ino, names[1..]);
    }
  }

  /**
   All three walkers resolve an absolute path alike, or all fail, if and only if the debuggers do not get
   to its end through a block device. So they agree whenever no block device on the path has entries.
   */
  lemma WalkersAgree(img: Image, path: Text)
    requires GoodNumbers(img)
    requires CharAt(path, 0) == SLASH && (forall i :: 0 <= i < |path| ==> path[i] != BACKSLASH)
    requires |Merged(path, true)| < PATH_MAX - 1
    ensures var kernel := Resolve(img, ROOTINO, Components(path), OPEN);
            var same := if kernel.Found? then Some(kernel.ino) else None;
            var debugger := DebugResolve(img, ROOTINO, Components(path));
            && DebugResolve(img, ROOTINO, Components(Normal(path))) == debugger
            && (debugger == same <==> (EntersBlockDevice(img, ROOTINO, Components(path)) ==> debugger == None))
  {
    hide Components, Resolve, DebugResolve, Slashes, Merged, EntersBlockDevice;
    var names := Components(path);
    NoBackslashes(path);
    NormalMeansTheSame(path);
    if Resolve(img, ROOTINO, names, OPEN).Found? {
      KernelFindsDebuggerFinds(img, ROOTINO, names);
    }
    if DebugResolve(img, ROOTINO, names).Some? {
      DebuggerFindsKernelFinds(img, ROOTINO, names);
    }
  }

  /** No block device of the image reads as having entries. */
  ghost predicate EmptyDevices(img: Image) {
    forall ino :: ino in img && img[ino].IsBlockDevice() ==> img[ino].entries == []
  }

  lemma {:induction false} EmptyDevicesAreNotEntered(img: Image, ino: int, names: seq<Name>)
    requires EmptyDevices(img)
    ensures !EntersBlockDevice(img, ino, names)
    decreases |names|
  {
    if names != [] {
      var n := NodeAt(img, ino);
      var k := Find(n.entries, names[0]);
      if k < |n.entries| {
        EmptyDevicesAreNotEntered(img, n.entries[k].ino, names[1..]);
      }
    }
  }

  /** A block device that happens to read like a directory: only the debuggers go through it. */
  lemma BlockDeviceIsSearched() returns (img: Image, names: seq<Name>)
    ensures Resolve(img, ROOTINO, names, OPEN) == ENOTDIR && DebugResolve(img, ROOTINO, names) == Some(3)
  {
    var a: Name := seq(DIRSIZ, _ => 97);
    img := map[1 := Node(0x4000, [DirectoryEntry(2, a)]), 2 := Node(0x6000, [DirectoryEntry(3, a)]), 3 := Node(0, [])];
    names := [a, a];
    assert names[1..] == [a] && [a][1..] == [];
    FindIs([DirectoryEntry(2, a)], a, 0);
    FindIs([DirectoryEntry(3, a)], a, 0);
    assert NodeAt(img, 1).HasDirectoryBit() && NodeAt(img, 2).HasDirectoryBit();
    assert DebugResolve(img, 3, []) == Some(3);
    assert DebugResolve(img, 2, [a]) == Some(3);
    assert Resolve(img, 2, [a], OPEN) == ENOTDIR;
  }
}
