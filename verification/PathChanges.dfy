/** What `NameI` finds for a new name and for one to be deleted, and what paths mean after the change made there. */
module PathChanges {
  import opened Words
  import opened Directories
  import opened Walks

  /** A path's directory part, and its last name. */
  function Front(names: seq<Name>): seq<Name>
    requires names != []
  {
    names[..|names| - 1]
  }

  function Last(names: seq<Name>): Name
    requires names != []
  {
    names[|names| - 1]
  }

  /** In all modes the walk goes to the directory part as if to open it, and looks for the last name there. */
  lemma {:induction false} WalksToTheLast(img: Image, ino: int, names: seq<Name>, mode: Mode)
    requires names != []
    ensures var up := Resolve(img, ino, Front(names), OPEN);
            Resolve(img, ino, names, mode) == if up.Found? then Resolve(img, up.ino, [Last(names)], mode) else up
    decreases |names|
  {
    hide Find, FirstFree;
    if |names| == 1 {
      assert names == [Last(names)];
    } else {
      var n := NodeAt(img, ino);
      var k := Find(n.entries, names[0]);
      assert Front(names)[1..] == Front(names[1..]);
      if n.IsDirectory() && k < |n.entries| {
        WalksToTheLast(img, n.entries[k].ino, names[1..], mode);
      }
    }
  }

  /** The entries after `e` is written at byte `off`, over an entry or behind the last. */
  function WrittenAt(es: seq<DirectoryEntry>, off: int, e: DirectoryEntry): seq<DirectoryEntry>
    requires 0 <= off / ENTRY_SIZE <= |es|
  {
    var k := off / ENTRY_SIZE;
    if k < |es| then es[k := e] else es + [e]
  }

  /** `r` is the place for a new name in a directory that does not have it: the first free entry, or the end. */
  ghost predicate IsPlace(img: Image, r: Result) {
    && r.Place?
    && var es := NodeAt(img, r.dir).entries;
       && NodeAt(img, r.dir).IsDirectory() && r.name !in DirMap(es)
       && r.m_Offset % ENTRY_SIZE == 0 && 0 <= r.m_Offset / ENTRY_SIZE <= |es|
       && (forall i :: 0 <= i < r.m_Offset / ENTRY_SIZE ==> es[i].ino != 0)
       && (r.m_Offset / ENTRY_SIZE < |es| ==> es[r.m_Offset / ENTRY_SIZE].ino == 0)
  }

  /** `r` names a directory, an entry of it in use, and the place just behind that entry; a search finds it. */
  ghost predicate IsParent(img: Image, r: Result) {
    && r.Parent?
    && var es := NodeAt(img, r.dir).entries;
       && NodeAt(img, r.dir).IsDirectory() && r.m_Offset % ENTRY_SIZE == 0 && 0 < r.m_Offset <= ENTRY_SIZE * |es|
       && r.dent == es[r.m_Offset / ENTRY_SIZE - 1] && r.dent.ino != 0
       && Find(es, r.dent.name) == r.m_Offset / ENTRY_SIZE - 1
  }

  /** The last name, looked for in the directory reached. */
  lemma {:induction false} OneName(img: Image, ino: int, name: Name, mode: Mode)
    ensures var r, n := Resolve(img, ino, [name], mode), NodeAt(img, ino);
            if !n.IsDirectory() then r == ENOTDIR
            else if name in DirMap(n.entries) then
              if mode == DELETE then IsParent(img, r) && r.dir == ino && r.dent.name == name
              else r == Found(DirMap(n.entries)[name])
            else if mode == CREATE then IsPlace(img, r) && r.dir == ino && r.name == name
            else r == ENOENT
  {
    hide DirMap, Find, FirstFree;
    var n := NodeAt(img, ino);
    var k := Find(n.entries, name);
    if k < |n.entries| {
      assert Resolve(img, n.entries[k].ino, [name][1..], mode) == Found(n.entries[k].ino);
    }
  }

  lemma {:induction false} OpensOrFails(img: Image, ino: int, names: seq<Name>)
    ensures var r := Resolve(img, ino, names, OPEN); r.Found? || r == ENOENT || r == ENOTDIR
    decreases |names|
  {
    hide Find, FirstFree;
    if names != [] {
      var n := NodeAt(img, ino);
      var k := Find(n.entries, names[0]);
      if n.IsDirectory() && k < |n.entries| {
        OpensOrFails(img, n.entries[k].ino, names[1..]);
      }
    }
  }

  // Where a name is to be put, or taken out.

  /**
   For CREATE there is a place exactly if the directory part leads to a directory without the last name,
   and it is the place for that name in that directory; otherwise the path is resolved as for OPEN.
   */
  lemma {:induction false} CreateFindsPlace(img: Image, ino: int, names: seq<Name>)
    requires names != []
    ensures var r, up := Resolve(img, ino, names, CREATE), Resolve(img, ino, Front(names), OPEN);
            var n := if up.Found? then NodeAt(img, up.ino) else Node(0, []);
            && (r.Place? <==> n.IsDirectory() && Last(names) !in DirMap(n.entries))
            && if r.Place? then
                 && IsPlace(img, r) && up == Found(r.dir) && r.name == Last(names)
                 && Resolve(img, ino, names, OPEN) == ENOENT
               else r == Resolve(img, ino, names, OPEN)
  {
    hide DirMap, Find, FirstFree, IsParent, Resolve;
    WalksToTheLast(img, ino, names, CREATE);
    WalksToTheLast(img, ino, names, OPEN);
    OpensOrFails(img, ino, Front(names));
    var up := Resolve(img, ino, Front(names), OPEN);
    if up.Found? {
      OneName(img, up.ino, Last(names), CREATE);
      OneName(img, up.ino, Last(names), OPEN);
    }
  }

  /**
   For DELETE the parent is found exactly if the path can be opened: it is what the directory part leads
   to, with the entry of the last name, which names the inode that opening finds.
   */
  lemma {:induction false} DeleteFindsParent(img: Image, ino: int, names: seq<Name>)
    requires names != []
    ensures var r, open := Resolve(img, ino, names, DELETE), Resolve(img, ino, names, OPEN);
            if open.Found? then
              && IsParent(img, r) && Resolve(img, ino, Front(names), OPEN) == Found(r.dir)
              && r.dent == DirectoryEntry(open.ino, Last(names))
            else r == open
  {
    hide DirMap, Find, FirstFree, Resolve, IsPlace;
    WalksToTheLast(img, ino, names, DELETE);
    WalksToTheLast(img, ino, names, OPEN);
    var up := Resolve(img, ino, Front(names), OPEN);
    if up.Found? {
      OneName(img, up.ino, Last(names), DELETE);
      OneName(img, up.ino, Last(names), OPEN);
      ParentBinds(img, Resolve(img, up.ino, [Last(names)], DELETE));
    }
  }

  lemma {:induction false} ParentBinds(img: Image, r: Result)
    ensures IsParent(img, r) ==>
              var m := DirMap(NodeAt(img, r.dir).entries); r.dent.name in m && m[r.dent.name] == r.dent.ino
  {
    hide Find;
  }

  /** Written at its place, a new entry adds just its binding. */
  lemma {:induction false} PlaceAddsName(img: Image, r: Result, newIno: int)
    requires IsPlace(img, r) && UniqueNames(NodeAt(img, r.dir).entries) && newIno != 0
    ensures var es := NodeAt(img, r.dir).entries;
            var es' := WrittenAt(es, r.m_Offset, DirectoryEntry(newIno, r.name));
            UniqueNames(es') && DirMap(es') == DirMap(es)[r.name := newIno]
  {
    hide DirMap, Find, UniqueNames;
    var es := NodeAt(img, r.dir).entries;
    FirstFreeIs(es, r.m_Offset / ENTRY_SIZE);
    CreateAddsBinding(es, DirectoryEntry(newIno, r.name));
  }

  lemma {:induction false} FirstFreeIs(es: seq<DirectoryEntry>, k: int)
    requires 0 <= k <= |es| && (forall i :: 0 <= i < k ==> es[i].ino != 0) && (k < |es| ==> es[k].ino == 0)
    ensures FirstFree(es) == k
  {
    hide FirstFree;
  }

  /** The entry just before the offset found for DELETE, freed, takes out just its binding. */
  lemma {:induction false} ParentLosesName(img: Image, r: Result)
    requires IsParent(img, r) && UniqueNames(NodeAt(img, r.dir).entries)
    ensures var es := NodeAt(img, r.dir).entries;
            var es' := WrittenAt(es, r.m_Offset - ENTRY_SIZE, DirectoryEntry(0, r.dent.name));
            UniqueNames(es') && DirMap(es') == DirMap(es) - {r.dent.name}
  {
    hide DirMap, Find, UniqueNames;
    UnlinkRemovesBinding(NodeAt(img, r.dir).entries, r.dent.name);
  }

  // What paths mean afterwards.

  /** The image with one entry of a directory written. */
  function Changed(img: Image, dir: int, off: int, e: DirectoryEntry): Image
    requires 0 <= off / ENTRY_SIZE <= |NodeAt(img, dir).entries|
  {
    img[dir := NodeAt(img, dir).(entries := WrittenAt(NodeAt(img, dir).entries, off, e))]
  }

  ghost function WithName(img: Image, r: Result, newIno: int): Image
    requires IsPlace(img, r)
  {
    Changed(img, r.dir, r.m_Offset, DirectoryEntry(newIno, r.name))
  }

  ghost function WithoutName(img: Image, r: Result): Image
    requires IsParent(img, r)
  {
    Changed(img, r.dir, r.m_Offset - ENTRY_SIZE, DirectoryEntry(0, r.dent.name))
  }

  /** What could be opened before a name was added still opens as it did. */
  lemma {:induction false} OldPathsOpen(img: Image, r: Result, newIno: int, ino: int, names: seq<Name>)
    requires IsPlace(img, r) && newIno != 0 && Resolve(img, ino, names, OPEN).Found?
    ensures Resolve(WithName(img, r, newIno), ino, names, OPEN) == Resolve(img, ino, names, OPEN)
    decreases |names|
  {
    hide DirMap, Find, FirstFree, UniqueNames;
    if names != [] {
      var es := NodeAt(img, r.dir).entries;
      var n := NodeAt(img, ino);
      var k := Find(n.entries, names[0]);
      if ino == r.dir {
        FirstFreeIs(es, r.m_Offset / ENTRY_SIZE);
        FindCreated(es, DirectoryEntry(newIno, r.name), names[0]);
      }
      OldPathsOpen(img, r, newIno, n.entries[k].ino, names[1..]);
    }
  }

  /** A path created opens: it leads to the inode whose number was written at the place. */
  lemma {:induction false} CreateThenOpen(img: Image, ino: int, names: seq<Name>, newIno: int)
    requires names != [] && newIno != 0 && Resolve(img, ino, names, CREATE).Place?
    ensures var r := Resolve(img, ino, names, CREATE);
            IsPlace(img, r) && Resolve(WithName(img, r, newIno), ino, names, OPEN) == Found(newIno)
  {
    hide DirMap, Find, FirstFree, UniqueNames, Resolve, IsParent;
    CreateFindsPlace(img, ino, names);
    var r := Resolve(img, ino, names, CREATE);
    var es, e := NodeAt(img, r.dir).entries, DirectoryEntry(newIno, r.name);
    var img' := WithName(img, r, newIno);
    OldPathsOpen(img, r, newIno, ino, Front(names));
    WalksToTheLast(img', ino, names, OPEN);
    FirstFreeIs(es, r.m_Offset / ENTRY_SIZE);
    OneName(img', r.dir, Last(names), OPEN);
    BindingAfterCreate(es, e, r.name);
  }

  lemma {:induction false} GoneFromDirectory(img: Image, r: Result)
    requires IsParent(img, r) && UniqueNames(NodeAt(img, r.dir).entries)
    ensures Resolve(WithoutName(img, r), r.dir, [r.dent.name], OPEN) == ENOENT
  {
    hide DirMap, Find, FirstFree, UniqueNames, Resolve, IsPlace;
    ParentLosesName(img, r);
    OneName(WithoutName(img, r), r.dir, r.dent.name, OPEN);
  }

  /** A path deleted does not open any more, even if its directory part led through the name deleted. */
  lemma {:induction false} DeleteThenGone(img: Image, ino: int, names: seq<Name>)
    requires names != [] && Resolve(img, ino, names, DELETE).Parent?
    ensures var r := Resolve(img, ino, names, DELETE);
            && IsParent(img, r)
            && (UniqueNames(NodeAt(img, r.dir).entries) ==> Resolve(WithoutName(img, r), ino, names, OPEN) == ENOENT)
  {
    hide UniqueNames, Resolve, IsParent, WithoutName;
    OpensOrFails(img, ino, names);
    DeleteFindsParent(img, ino, names);
    var r := Resolve(img, ino, names, DELETE);
    if UniqueNames(NodeAt(img, r.dir).entries) {
      PathsLose(img, r, ino, Front(names));
      WalksToTheLast(WithoutName(img, r), ino, names, OPEN);
      GoneFromDirectory(img, r);
    }
  }

  /** Taking a name out of a directory leaves paths leading where they led, or nowhere. */
  lemma {:induction false} PathsLose(img: Image, r: Result, ino: int, names: seq<Name>)
    requires IsParent(img, r) && UniqueNames(NodeAt(img, r.dir).entries) && Resolve(img, ino, names, OPEN).Found?
    ensures var after := Resolve(WithoutName(img, r), ino, names, OPEN);
            after == Resolve(img, ino, names, OPEN) || after == ENOENT
    decreases |names|
  {
    hide DirMap, Find, FirstFree, UniqueNames, IsParent, WithoutName;
    if names != [] {
      var n := NodeAt(img, ino);
      SearchLoses(img, r, ino, names[0]);
      PathsLose(img, r, n.entries[Find(n.entries, names[0])].ino, names[1..]);
    }
  }

  lemma {:induction false} SearchLoses(img: Image, r: Result, ino: int, name: Name)
    requires IsParent(img, r) && UniqueNames(NodeAt(img, r.dir).entries)
    ensures var n, after := NodeAt(img, ino), NodeAt(WithoutName(img, r), ino);
            && after.IsDirectory() == n.IsDirectory()
            && var k, k' := Find(n.entries, name), Find(after.entries, name);
               k' == |after.entries| || (k < |n.entries| && after.entries[k'] == n.entries[k])
  {
    hide DirMap, Find, FirstFree, UniqueNames;
    if ino == r.dir {
      FindRemoved(NodeAt(img, r.dir).entries, r.dent.name, name);
    }
  }
}
