/**
 The directory that holds a key-value table: one file per key, plus one temporary dot file per key
 while a value is being written. Names point to inodes, so that a reader that has opened a file keeps
 reading the same inode whatever happens to the name afterwards.
 */
module FileStore {

  type Key = string
  type Inode = nat

  datatype Fs = Fs(
    target: map<Key, Inode>,    // the files named after a key
    tmp: map<Key, Inode>,       // the files named '.' + key
    data: map<Inode, string>,   // contents
    unused: Inode               // no inode from here on is in use
  )

  const EMPTY_FS := Fs(map[], map[], map[], 0)

  /** Names refer to allocated inodes; an inode under a temporary name has no other name. */
  ghost predicate WellFormed(fs: Fs) {
    && (forall i :: i in fs.data ==> i < fs.unused)
    && (forall k :: k in fs.target ==> fs.target[k] in fs.data)
    && (forall k :: k in fs.tmp ==> fs.tmp[k] in fs.data)
    && (forall k, k' :: k in fs.tmp && k' in fs.tmp && k != k' ==> fs.tmp[k] != fs.tmp[k'])
    && (forall k, k' :: k in fs.tmp && k' in fs.target ==> fs.tmp[k] != fs.target[k'])
  }

  /** What the table means: every key with the contents of its file. */
  function View(fs: Fs): map<Key, string> {
    map k | k in fs.target && fs.target[k] in fs.data :: fs.data[fs.target[k]]
  }

  /** Opens the temporary file for writing: an old one is truncated, else a new inode is made. */
  function CreateTmp(fs: Fs, k: Key): Fs {
    if k in fs.tmp then
      fs.(data := fs.data[fs.tmp[k] := ""])
    else
      fs.(tmp := fs.tmp[k := fs.unused], data := fs.data[fs.unused := ""], unused := fs.unused + 1)
  }

  /** Writes through the open handle, which is bound to the inode. */
  function Append(fs: Fs, i: Inode, chunk: string): Fs
    requires i in fs.data
  {
    fs.(data := fs.data[i := fs.data[i] + chunk])
  }

  /** Atomically gives the temporary file the name of the key, replacing a file of that name. */
  function Rename(fs: Fs, k: Key): Fs
    requires k in fs.tmp
  {
    fs.(target := fs.target[k := fs.tmp[k]], tmp := fs.tmp - {k})
  }

  function Remove(fs: Fs, k: Key): Fs {
    fs.(target := fs.target - {k})
  }

  /** Creating a temporary file, and writing to it, cannot be seen through the table. */
  lemma CreatingTmpKeepsView(fs: Fs, k: Key)
    requires WellFormed(fs)
    ensures
      var fs1 := CreateTmp(fs, k);
      WellFormed(fs1) && View(fs1) == View(fs) && k in fs1.tmp && fs1.data[fs1.tmp[k]] == ""
  {
  }

  lemma WritingTmpKeepsView(fs: Fs, k: Key, chunk: string)
    requires WellFormed(fs) && k in fs.tmp
    ensures WellFormed(Append(fs, fs.tmp[k], chunk)) && View(Append(fs, fs.tmp[k], chunk)) == View(fs)
  {
  }

  lemma RenamePublishes(fs: Fs, k: Key)
    requires WellFormed(fs) && k in fs.tmp
    ensures WellFormed(Rename(fs, k))
    ensures View(Rename(fs, k)) == View(fs)[k := fs.data[fs.tmp[k]]]
  {
  }

  lemma RemoveUnpublishes(fs: Fs, k: Key)
    requires WellFormed(fs)
    ensures WellFormed(Remove(fs, k)) && View(Remove(fs, k)) == View(fs) - {k}
  {
  }
}
