/** The agent's log file, bounded in size, on a disk where any call may fail and any
    write may be cut short. */
module LogFile {
  import opened Wrappers

  /** A call to the disk, and how it ended; an append tells how many bytes it wrote. */
  datatype Op = Renamed(ok: bool) | Opened(ok: bool) | Truncated(ok: bool) | Appended(written: Option<nat>)

  /** Two names in one directory, and the files they may lead to.  A file stays open
      under its handle whatever becomes of its name.  The calls are recorded. */
  class Disk {
    ghost var ops: seq<Op>
    var files: map<nat, Bytes>
    var current: Option<nat>
    var previous: Option<nat>

    ghost predicate Valid()
      reads this
    {
      && (current.Some? ==> current.value in files)
      && (previous.Some? ==> previous.value in files)
      && (current.Some? && previous.Some? ==> current.value != previous.value)
    }

    /** `agent.log` takes the name `agent.log.old`, which loses its former file. */
    method Rename() returns (ok: bool)
      requires Valid()
      modifies `current, `previous, `ops
      ensures Valid() && ops == old(ops) + [Renamed(ok)]
      ensures ok ==> old(current).Some? && previous == old(current) && current == None
      ensures !ok ==> previous == old(previous) && current == old(current)
    {
      ok := *;
      if current.None? {
        ok := false;
      }
      if ok {
        previous, current := current, None;
      }
      ops := ops + [Renamed(ok)];
    }

    /** Opens `agent.log` for appending, creating it if there is none. */
    method Open() returns (handle: Option<nat>)
      requires Valid()
      modifies `files, `current, `ops
      ensures ops == old(ops) + [Opened(handle.Some?)]
      ensures Valid() && forall f :: f in old(files) ==> f in files && files[f] == old(files)[f]
      ensures handle.None? ==> files == old(files) && current == old(current)
      ensures handle.Some? ==> current == handle && handle.value in files
      ensures handle.Some? && old(current).Some? ==> handle == old(current)
      ensures handle.Some? && old(current).None? ==> handle.value !in old(files) && files[handle.value] == []
    {
      var ok := *;
      ops := ops + [Opened(ok)];
      if !ok {
        return None;
      }
      if current.None? {
        var inode := Unused(files.Keys);
        files := files[inode := []];
        current := Some(inode);
      }
      return current;
    }

    method Truncate(handle: nat) returns (ok: bool)
      requires Valid() && handle in files
      modifies `files, `ops
      ensures Valid() && files == if ok then old(files)[handle := []] else old(files)
      ensures ops == old(ops) + [Truncated(ok)]
    {
      ok := *;
      ops := ops + [Truncated(ok)];
      if ok {
        files := files[handle := []];
      }
    }

    /** Appends some of the bytes, from the first on. */
    method Append(handle: nat, data: Bytes) returns (written: Option<nat>)
      requires Valid() && handle in files
      modifies `files, `ops
      ensures Valid() && ops == old(ops) + [Appended(written)]
      ensures written.None? ==> files == old(files)
      ensures written.Some? ==> written.value <= |data|
      ensures written.Some? ==> files == old(files)[handle := old(files)[handle] + data[..written.value]]
    {
      var ok := *;
      if !ok {
        ops := ops + [Appended(None)];
        return None;
      }
      var n: nat :| n <= |data|;
      ops := ops + [Appended(Some(n))];
      files := files[handle := files[handle] + data[..n]];
      return Some(n);
    }
  }

  function Largest(s: set<nat>): (n: nat)
    ensures forall x :: x in s ==> x <= n
    decreases |s|
  {
    if s == {} then 0
    else
      LargestExists(s);
      var m :| m in s && forall x :: x in s ==> x <= m;
      m
  }

  lemma LargestExists(s: set<nat>)
    requires s != {}
    ensures exists m :: m in s && forall x :: x in s ==> x <= m
    decreases |s|
  {
    var a :| a in s;
    var rest := s - {a};
    if rest == {} {
      assert forall x :: x in s ==> x == a || x in rest;
    } else {
      LargestExists(rest);
      var m :| m in rest && forall x :: x in rest ==> x <= m;
      var top := if a > m then a else m;
      assert forall x :: x in s ==> x == a || x in rest;
      assert top in s && forall x :: x in s ==> x <= top;
    }
  }

  /** A file number that no file has. */
  function Unused(s: set<nat>): (n: nat)
    ensures n !in s
  {
    Largest(s) + 1
  }

  predicate IsSuffix(part: Bytes, whole: Bytes) {
    |part| <= |whole| && part == whole[|whole| - |part|..]
  }

  lemma SuffixGrows(part: Bytes, whole: Bytes, more: Bytes)
    requires IsSuffix(part, whole)
    ensures IsSuffix(part + more, whole + more)
  {
  }

  /** What is on the disk is the end of what was written: the file in use, and, when the
      last rotation went well, the file set aside followed by it. */
  ghost predicate Recent(content: Bytes, older: Option<Bytes>, stream: Bytes) {
    IsSuffix(content, stream) && (older.Some? ==> IsSuffix(older.value + content, stream))
  }

  lemma RecentGrows(content: Bytes, older: Option<Bytes>, stream: Bytes, part: Bytes)
    requires Recent(content, older, stream)
    ensures Recent(content + part, older, stream + part)
  {
    hide IsSuffix;
    SuffixGrows(content, stream, part);
    if older.Some? {
      SuffixGrows(older.value + content, stream, part);
      assert older.value + content + part == older.value + (content + part);
    }
  }

  /** Within the bound, unless it is a single write or still what was found at first. */
  ghost predicate Bounded(content: Bytes, maxBytes: nat, last: Bytes, found: Bytes) {
    |content| <= maxBytes || content == last || content == found
  }

  lemma StaysBounded(content: Bytes, maxBytes: nat, data: Bytes, n: nat, found: Bytes)
    requires n <= |data| && (content == [] || |content| + |data| <= maxBytes)
    ensures Bounded(content + data[..n], maxBytes, data[..n], found)
  {
    assert content == [] ==> content + data[..n] == data[..n];
  }

  class LogFile {
    const disk: Disk
    const maxBytes: nat
    var file: nat
    var len: nat
    /** Everything written so far, after what the file held when it was opened. */
    ghost var stream: Bytes
    ghost var found: Bytes
    ghost var last: Bytes
    /** The last rotation renamed the full file and found a new one. */
    ghost var chained: bool

    ghost predicate Valid()
      reads this, disk
    {
      && disk.Valid() && file in disk.files
      && len == |disk.files[file]|
      && Recent(disk.files[file], Older(), stream)
      && Bounded(disk.files[file], maxBytes, last, found)
      && (chained ==> disk.current == Some(file) && disk.previous.Some?)
    }

    ghost function Older(): Option<Bytes>
      reads this, disk
    {
      if chained && disk.previous.Some? && disk.previous.value in disk.files
      then Some(disk.files[disk.previous.value]) else None
    }

    /** The handle is all that is kept of the file; `maxBytes` is its bound. */
    constructor (disk: Disk, handle: nat, maxBytes: nat)
      requires disk.Valid() && handle in disk.files && disk.current == Some(handle)
      ensures Valid() && this.disk == disk && file == handle && this.maxBytes == maxBytes
      ensures stream == found == disk.files[handle] && last == [] && !chained
    {
      this.disk, this.maxBytes, file := disk, maxBytes, handle;
      len := |disk.files[handle]|;
      stream, found, last, chained := disk.files[handle], disk.files[handle], [], false;
    }

    /** The file is emptied only when it could not be renamed. */
    static ghost function Rotation(ok: bool, renamed: bool): seq<Op> {
      [Renamed(renamed), if renamed then Opened(ok) else Truncated(ok)]
    }

    /** Sets the full file aside, or empties it if it cannot be renamed.  When the new
        file cannot be found the old one stays in use under its new name. */
    method Rotate() returns (ok: bool, renamed: bool)
      requires Valid()
      modifies this`file, this`len, this`chained, disk
      ensures Valid()
      ensures ok ==> len == 0
      ensures disk.ops == old(disk.ops) + Rotation(ok, renamed)
      ensures chained <==> ok && renamed && old(disk.current) == Some(old(file))
      ensures !ok ==> file == old(file) && len == old(len) && disk.files == old(disk.files)
      ensures ok && !renamed ==> file == old(file) && disk.files == old(disk.files)[file := []]
      ensures ok && chained ==> disk.previous == Some(old(file)) && disk.files[old(file)] == old(disk.files[file])
    {
      ghost var wasOpen := disk.current == Some(file);
      renamed := disk.Rename();
      chained := false;
      if renamed {
        var handle := disk.Open();
        if handle.None? {
          return false, true;
        }
        ghost var full := disk.files[file];
        assert full == old(disk.files)[file];
        chained := wasOpen;
        file := handle.value;
        assert full + [] == full;
      } else {
        var emptied := disk.Truncate(file);
        if !emptied {
          return false, false;
        }
      }
      len := 0;
      return true, renamed;
    }

    /** A file that is not empty is set aside rather than made to exceed the bound. */
    method Write(data: Bytes) returns (written: Option<nat>)
      requires Valid()
      modifies this, disk
      ensures Valid()
      ensures written.Some? ==> written.value <= |data|
      ensures stream == old(stream) + if written.Some? then data[..written.value] else []
      ensures var full := old(len) > 0 && old(len) + |data| > maxBytes;
              && (written.Some? ==>
                    disk.files[file] == (if full then [] else old(disk.files[file])) + data[..written.value])
              && (written.None? ==> disk.files[file] == old(disk.files[file]) || (full && disk.files[file] == []))
              && (!full ==> file == old(file) && chained == old(chained))
              && (!full ==> disk.ops == old(disk.ops) + [Appended(written)])
              && (full ==> exists ok, renamed ::
                    && disk.ops == old(disk.ops) + Rotation(ok, renamed) + (if ok then [Appended(written)] else [])
                    && (written.Some? ==> ok))
      ensures last == (if written.Some? then data[..written.value] else old(last)) && found == old(found)
    {
      hide Recent;
      hide Bounded;
      assert stream + [] == stream;
      if len > 0 && len + |data| > maxBytes {
        var ok, renamed := Rotate();
        assert disk.ops == old(disk.ops) + Rotation(ok, renamed) + [];
        if !ok {
          return None;
        }
      }
      ghost var before := disk.files[file];
      written := disk.Append(file, data);
      if written.Some? {
        ghost var part := data[..written.value];
        RecentGrows(before, Older(), stream, part);
        StaysBounded(before, maxBytes, data, written.value, found);
        Wrote(part);
        len := len + written.value;
      }
    }

    ghost method Wrote(part: Bytes)
      modifies this`stream, this`last
      ensures stream == old(stream) + part && last == part
    {
      stream := stream + part;
      last := part;
    }
  }
}
