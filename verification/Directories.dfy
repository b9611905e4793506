/**
 A directory is a file of 32-byte entries, an inode number and a name of 28 bytes padded with NUL;
 number 0 marks a free entry. Its meaning is the map from names to numbers.
 */
module Directories {
  import opened Words
  import opened FileBytes

  const DIRSIZ := 28
  const ENTRY_SIZE := 32

  type Name = s: seq<byte> | |s| == DIRSIZ witness seq(DIRSIZ, _ => 0)

  datatype DirectoryEntry = DirectoryEntry(ino: int, name: Name)

  /** A little-endian double word, read as an unsigned number. */
  function DWord(b: seq<byte>): (w: int)
    requires |b| == 4
    ensures 0 <= w < WORD_LIMIT
  {
    var b0: int, b1: int, b2: int, b3: int := b[0], b[1], b[2], b[3];
    b0 + 0x100 * b1 + 0x1_0000 * b2 + 0x100_0000 * b3
  }

  function DWordBytes(w: int): (b: seq<byte>)
    requires 0 <= w < WORD_LIMIT
    ensures |b| == 4 && DWord(b) == w
  {
    BytesOfWord(w);
    [w % 0x100, w / 0x100 % 0x100, w / 0x1_0000 % 0x100, w / 0x100_0000]
  }

  function Encode(e: DirectoryEntry): (b: seq<byte>)
    requires 0 <= e.ino < WORD_LIMIT
    ensures |b| == ENTRY_SIZE
  {
    DWordBytes(e.ino) + e.name
  }

  function Decode(b: seq<byte>): (e: DirectoryEntry)
    requires |b| == ENTRY_SIZE
    ensures 0 <= e.ino < WORD_LIMIT
  {
    DirectoryEntry(DWord(b[..4]), b[4..])
  }

  lemma DecodeEncode(e: DirectoryEntry)
    requires 0 <= e.ino < WORD_LIMIT
    ensures Decode(Encode(e)) == e
  {
    assert Encode(e)[..4] == DWordBytes(e.ino) && Encode(e)[4..] == e.name;
  }

  /** The entry that starts at `k` times the entry size. */
  function EntryAt(c: seq<byte>, k: int): DirectoryEntry
    requires 0 <= k && ENTRY_SIZE * (k + 1) <= |c|
  {
    Decode(c[ENTRY_SIZE * k..ENTRY_SIZE * (k + 1)])
  }

  /** All entries of a directory file; bytes after the last whole entry do not count. */
  function Entries(c: seq<byte>): (es: seq<DirectoryEntry>)
    ensures |es| == |c| / ENTRY_SIZE
    ensures forall k :: 0 <= k < |es| ==> es[k] == EntryAt(c, k)
  {
    seq(|c| / ENTRY_SIZE, k requires 0 <= k < |c| / ENTRY_SIZE => EntryAt(c, k))
  }

  /** Writing one entry over another, or behind the last, does just that to the list of entries. */
  lemma EntriesOfOverlay(c: seq<byte>, k: int, e: DirectoryEntry)
    requires 0 <= e.ino < WORD_LIMIT && 0 <= k <= |Entries(c)|
    requires k == |Entries(c)| ==> |c| % ENTRY_SIZE == 0
    ensures Entries(Overlay(c, ENTRY_SIZE * k, Encode(e)))
         == if k < |Entries(c)| then Entries(c)[k := e] else Entries(c) + [e]
  {
    var d := Overlay(c, ENTRY_SIZE * k, Encode(e));
    DecodeEncode(e);
    forall i | 0 <= i < |Entries(d)| ensures EntryAt(d, i) == if i == k then e else EntryAt(c, i) {
      OverlaySlice(c, ENTRY_SIZE * k, Encode(e), ENTRY_SIZE * i, ENTRY_SIZE);
    }
  }

  lemma OverlaySlice(c: seq<byte>, off: nat, data: seq<byte>, at: int, n: int)
    requires 0 <= at && 0 <= n && at + n <= |Overlay(c, off, data)| && data != []
    ensures at == off && n == |data| ==> Overlay(c, off, data)[at..at + n] == data
    ensures at + n <= off || off + |data| <= at ==>
              at + n <= |c| ==> Overlay(c, off, data)[at..at + n] == c[at..at + n]
  {
  }

  // Searching.

  /** The first entry in use with this name; the number of entries if there is none. */
  function Find(es: seq<DirectoryEntry>, name: Name): (k: int)
    ensures 0 <= k <= |es|
    ensures k < |es| ==> es[k].ino != 0 && es[k].name == name
    ensures forall i :: 0 <= i < k ==> es[i].ino == 0 || es[i].name != name
  {
    if es == [] then 0
    else if es[0].ino != 0 && es[0].name == name then 0
    else 1 + Find(es[1..], name)
  }

  /** The first free entry; the number of entries if there is none. */
  function FirstFree(es: seq<DirectoryEntry>): (k: int)
    ensures 0 <= k <= |es|
    ensures k < |es| ==> es[k].ino == 0
    ensures forall i :: 0 <= i < k ==> es[i].ino != 0
  {
    if es == [] then 0 else if es[0].ino == 0 then 0 else 1 + FirstFree(es[1..])
  }

  /** The result of a search is settled by what it promises. */
  lemma FindIs(es: seq<DirectoryEntry>, name: Name, k: int)
    requires 0 <= k <= |es| && (k < |es| ==> es[k].ino != 0 && es[k].name == name)
    requires forall i :: 0 <= i < k ==> es[i].ino == 0 || es[i].name != name
    ensures Find(es, name) == k
  {
  }

  // The map that a directory stands for.

  /** Every entry in use is the one that a search for its name finds. */
  ghost predicate UniqueNames(es: seq<DirectoryEntry>) {
    forall k :: 0 <= k < |es| && es[k].ino != 0 ==> Find(es, es[k].name) == k
  }

  /** From the names in use to what a search finds. */
  ghost function DirMap(es: seq<DirectoryEntry>): (m: map<Name, int>)
    ensures forall n: Name :: n in m <==> Find(es, n) < |es|
    ensures forall n: Name :: n in m ==> m[n] == es[Find(es, n)].ino
  {
    var names := set k | 0 <= k < |es| && es[k].ino != 0 :: es[k].name;
    map n | n in names :: es[Find(es, n)].ino
  }

  /** The entries after a new name is put into the first free one, or behind the last. */
  function Created(es: seq<DirectoryEntry>, e: DirectoryEntry): seq<DirectoryEntry> {
    var k := FirstFree(es);
    if k < |es| then es[k := e] else es + [e]
  }

  lemma FindCreated(es: seq<DirectoryEntry>, e: DirectoryEntry, n: Name)
    requires e.ino != 0 && Find(es, e.name) == |es|
    ensures var es' := Created(es, e);
            if n == e.name then Find(es', n) == FirstFree(es)
            else if Find(es, n) < |es| then Find(es', n) == Find(es, n) && es'[Find(es, n)] == es[Find(es, n)]
            else Find(es', n) == |es'|
  {
    var k, es' := FirstFree(es), Created(es, e);
    if n == e.name {
      FindIs(es', n, k);
    } else if Find(es, n) < |es| {
      FindIs(es', n, Find(es, n));
    } else {
      FindIs(es', n, |es'|);
    }
  }

  lemma CreateKeepsUnique(es: seq<DirectoryEntry>, e: DirectoryEntry)
    requires UniqueNames(es) && e.ino != 0 && Find(es, e.name) == |es|
    ensures UniqueNames(Created(es, e))
  {
    hide Find, FirstFree, DirMap;
    var es' := Created(es, e);
    forall i | 0 <= i < |es'| && es'[i].ino != 0 ensures Find(es', es'[i].name) == i {
      FindCreated(es, e, es'[i].name);
    }
  }

  lemma BindingAfterCreate(es: seq<DirectoryEntry>, e: DirectoryEntry, n: Name)
    requires e.ino != 0 && Find(es, e.name) == |es|
    ensures n in DirMap(Created(es, e)) <==> n == e.name || n in DirMap(es)
    ensures n in DirMap(Created(es, e)) ==> DirMap(Created(es, e))[n] == if n == e.name then e.ino else DirMap(es)[n]
  {
    hide Find, FirstFree, DirMap;
    FindCreated(es, e, n);
  }

  /** Creating a name that is not there adds one binding and leaves all others. */
  lemma CreateAddsBinding(es: seq<DirectoryEntry>, e: DirectoryEntry)
    requires UniqueNames(es) && e.ino != 0 && Find(es, e.name) == |es|
    ensures UniqueNames(Created(es, e))
    ensures e.name !in DirMap(es) && DirMap(Created(es, e)) == DirMap(es)[e.name := e.ino]
  {
    hide Find, DirMap, Created, UniqueNames;
    CreateKeepsUnique(es, e);
    forall n: Name
      ensures n in DirMap(Created(es, e)) <==> n == e.name || n in DirMap(es)
      ensures n in DirMap(Created(es, e)) ==> DirMap(Created(es, e))[n] == if n == e.name then e.ino else DirMap(es)[n]
    {
      BindingAfterCreate(es, e, n);
    }
  }

  /** The entries after the one for `name` is marked free; its name stays behind. */
  function Removed(es: seq<DirectoryEntry>, name: Name): seq<DirectoryEntry> {
    var k := Find(es, name);
    if k < |es| then es[k := DirectoryEntry(0, name)] else es
  }

  lemma FindRemoved(es: seq<DirectoryEntry>, name: Name, n: Name)
    requires UniqueNames(es)
    ensures var es' := Removed(es, name);
            if n == name then Find(es', n) == |es'|
            else if Find(es, n) < |es| then Find(es', n) == Find(es, n) && es'[Find(es, n)] == es[Find(es, n)]
            else Find(es', n) == |es'|
  {
    hide Find;
    var es' := Removed(es, name);
    if n != name && Find(es, n) < |es| {
      FindIs(es', n, Find(es, n));
    } else {
      FindIs(es', n, |es'|);
    }
  }

  lemma UnlinkKeepsUnique(es: seq<DirectoryEntry>, name: Name)
    requires UniqueNames(es)
    ensures UniqueNames(Removed(es, name))
  {
    hide Find, DirMap;
    var es' := Removed(es, name);
    forall i | 0 <= i < |es'| && es'[i].ino != 0 ensures Find(es', es'[i].name) == i {
      FindRemoved(es, name, es'[i].name);
    }
  }

  lemma BindingAfterUnlink(es: seq<DirectoryEntry>, name: Name, n: Name)
    requires UniqueNames(es)
    ensures n in DirMap(Removed(es, name)) <==> n != name && n in DirMap(es)
    ensures n in DirMap(Removed(es, name)) ==> DirMap(Removed(es, name))[n] == DirMap(es)[n]
  {
    hide Find, DirMap;
    FindRemoved(es, name, n);
  }

  /** Unlinking removes one binding and leaves all others. */
  lemma UnlinkRemovesBinding(es: seq<DirectoryEntry>, name: Name)
    requires UniqueNames(es)
    ensures UniqueNames(Removed(es, name)) && DirMap(Removed(es, name)) == DirMap(es) - {name}
  {
    hide Find, DirMap, Removed, UniqueNames;
    UnlinkKeepsUnique(es, name);
    forall n: Name
      ensures n in DirMap(Removed(es, name)) <==> n != name && n in DirMap(es)
      ensures n in DirMap(Removed(es, name)) ==> DirMap(Removed(es, name))[n] == DirMap(es)[n]
    {
      BindingAfterUnlink(es, name, n);
    }
  }

  /** Unlinking what was just created brings the old map back. */
  lemma UnlinkUndoesCreate(es: seq<DirectoryEntry>, e: DirectoryEntry)
    requires UniqueNames(es) && e.ino != 0 && Find(es, e.name) == |es|
    ensures DirMap(Removed(Created(es, e), e.name)) == DirMap(es)
  {
    hide Find, FirstFree, Created, Removed, DirMap, UniqueNames;
    CreateAddsBinding(es, e);
    UnlinkRemovesBinding(Created(es, e), e.name);
    assert DirMap(es)[e.name := e.ino] - {e.name} == DirMap(es);
  }

  /**
   Without unique names the first of two entries hides the second, which an unlink then uncovers: the
   name stays bound exactly if it occurs again further on.
   */
  lemma UnlinkUncoversDuplicate(es: seq<DirectoryEntry>, name: Name)
    requires name in DirMap(es)
    ensures name in DirMap(Removed(es, name)) <==>
              exists k :: Find(es, name) < k < |es| && es[k].ino != 0 && es[k].name == name
  {
    var es', f := Removed(es, name), Find(es, name);
    if Find(es', name) == |es'| {
      forall k | f < k < |es| ensures es[k].ino == 0 || es[k].name != name {
        assert es'[k] == es[k];
      }
    } else {
      assert es[Find(es', name)] == es'[Find(es', name)];
    }
  }

  /** Such a directory: unlinking the name leaves it bound to another inode. */
  lemma {:induction false} DuplicateUncovered(name: Name) returns (es: seq<DirectoryEntry>)
    ensures name in DirMap(es) && DirMap(es)[name] == 1
    ensures name in DirMap(Removed(es, name)) && DirMap(Removed(es, name))[name] == 2
  {
    es := [DirectoryEntry(1, name), DirectoryEntry(2, name)];
    FindIs(es, name, 0);
    FindIs(Removed(es, name), name, 1);
  }

  /** Entry `k` freed, whatever it is by then. */
  function Freed(es: seq<DirectoryEntry>, k: int, name: Name): seq<DirectoryEntry>
    requires 0 <= k < |es|
  {
    es[k := DirectoryEntry(0, name)]
  }

  lemma {:induction false} BindingAfterFreed(es: seq<DirectoryEntry>, k: int, name: Name, n: Name)
    requires UniqueNames(es) && 0 <= k < |es|
    ensures n in DirMap(Freed(es, k, name)) <==> n in DirMap(es) && Find(es, n) != k
    ensures n in DirMap(Freed(es, k, name)) ==> DirMap(Freed(es, k, name))[n] == DirMap(es)[n]
  {
    hide DirMap;
    var es' := Freed(es, k, name);
    if Find(es, n) < |es| && Find(es, n) != k {
      FindIs(es', n, Find(es, n));
    } else {
      forall i | 0 <= i < |es| ensures es'[i].ino == 0 || es'[i].name != n {
        assert es[i].ino != 0 ==> Find(es, es[i].name) == i;
      }
      FindIs(es', n, |es|);
    }
  }

  /**
   An unlink whose entry was found before others changed the directory to `es`: freeing that entry now
   takes out just its name if and only if the entry still has it, or is free and the name is gone.
   */
  lemma {:induction false} LateUnlinkIsRight(es: seq<DirectoryEntry>, k: int, name: Name)
    requires UniqueNames(es) && 0 <= k < |es|
    ensures DirMap(Freed(es, k, name)) == DirMap(es) - {name}
            <==> Find(es, name) == k || (es[k].ino == 0 && name !in DirMap(es))
  {
    hide DirMap, Find, Freed;
    var m, m' := DirMap(es), DirMap(Freed(es, k, name));
    BindingAfterFreed(es, k, name, name);
    BindingAfterFreed(es, k, name, es[k].name);
    if Find(es, name) == k || (es[k].ino == 0 && name !in m) {
      forall n: Name ensures n in m' <==> n in m && n != name ensures n in m' ==> m'[n] == m[n] {
        BindingAfterFreed(es, k, name, n);
      }
    } else if es[k].ino != 0 {
      assert Find(es, es[k].name) == k && es[k].name != name;
      assert es[k].name !in m' && es[k].name in m - {name};
    } else {
      assert name in m && name in m';
    }
  }

  /** Another name put into the entry meanwhile is lost. */
  lemma {:induction false} LateUnlinkLoses(name: Name, other: Name) returns (es: seq<DirectoryEntry>)
    requires name != other
    ensures UniqueNames(es) && |es| == 1 && other in DirMap(es) && name !in DirMap(es)
    ensures DirMap(Freed(es, 0, name)) == map[]
  {
    es := [DirectoryEntry(2, other)];
    FindIs(es, other, 0);
    FindIs(es, name, 1);
    assert forall n: Name :: n !in DirMap(Freed(es, 0, name));
  }
}
