/** The filesystem key-value table, as one caller at a time sees it. */
module KeyVal {
  import opened Wrappers
  import opened FileStore

  datatype KeyValError = KeyExists(key: Key)

  /** A table with one caller at a time. Values are the serialized strings. */
  class Table {
    var fs: Fs

    ghost predicate Valid()
      reads this
    {
      WellFormed(fs)
    }

    ghost function Contents(): map<Key, string>
      reads this
      requires Valid()
    {
      View(fs)
    }

    constructor ()
      ensures Valid() && Contents() == map[]
    {
      fs := EMPTY_FS;
    }

    /** Writes a temporary file and renames it into place. */
    method Insert(key: Key, valstr: string, exclusive: bool) returns (r: Result<(), KeyValError>)
      requires Valid()
      modifies this
      ensures Valid()
      ensures r.Failure? <==> exclusive && key in old(Contents())
      ensures r.Failure? ==> r.error == KeyExists(key) && Contents() == old(Contents())
      ensures r.Success? ==> Contents() == old(Contents())[key := valstr]
    {
      if exclusive && key in fs.target {
        return Failure(KeyExists(key));
      }
      CreatingTmpKeepsView(fs, key);
      fs := CreateTmp(fs, key);
      WritingTmpKeepsView(fs, key, valstr);
      fs := Append(fs, fs.tmp[key], valstr);
      RenamePublishes(fs, key);
      assert fs.data[fs.tmp[key]] == "" + valstr == valstr;
      fs := Rename(fs, key);
      return Success(());
    }

    /** Tells whether there was an entry to delete. */
    method Delete(key: Key) returns (deleted: bool)
      requires Valid()
      modifies this
      ensures Valid()
      ensures deleted <==> key in old(Contents())
      ensures Contents() == old(Contents()) - {key}
    {
      deleted := key in fs.target;
      RemoveUnpublishes(fs, key);
      fs := Remove(fs, key);
    }

    method Get(key: Key) returns (val: Option<string>)
      requires Valid()
      ensures val == if key in Contents() then Some(Contents()[key]) else None
    {
      if key in fs.target {
        val := Some(fs.data[fs.target[key]]);
      } else {
        val := None;
      }
    }
  }
}
