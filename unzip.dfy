/**
  Downloading an artifact and extracting it (process/main.go: DownloadArtifact, downloadZip,
  unzip).

  The archive is the sequence of its entries, already decoded; the decoder of the zip format
  is a parameter. The file system is a map from the path strings the code hands to the OS
  (all relative to the working directory) to what is stored there. The OS calls the code
  makes (os.MkdirAll, os.OpenFile, os.Create) are functions over that map.
 */
module Unzip {
  import opened Text
  import opened Paths
  import opened Process

  type Byte = b: int | 0 <= b < 256

  datatype Option<T> = None | Some(value: T)

  /** What reading an entry's contents gives: all of its bytes, or a failure (in f.Open or
      in the middle of io.Copy) after the bytes that were copied before it. Either way
      bytes is what ends up in the target file. */
  datatype Contents = Intact(bytes: seq<Byte>) | Corrupt(bytes: seq<Byte>)

  /** One archive entry: its name as stored, whether it is a directory, its permission bits
      and its contents. */
  datatype Entry = Entry(name: string, isDir: bool, mode: nat, contents: Contents)

  datatype Node = Directory(perm: nat) | File(mode: nat, data: seq<Byte>)

  type FileSystem = map<string, Node>

  /** os.ModePerm, the permission unzip creates directories with. */
  const ModePerm: nat := 0x1FF
  /** The permission of the "output" directory. */
  const OutputPerm: nat := 0x1ED
  /** The permission os.Create gives a new file. */
  const CreatePerm: nat := 0x1B6
  /** Where the downloaded archive is staged. */
  const Staging: string := "output/file.zip"

  /** The directory an artifact is extracted into: fmt.Sprintf("output/%d", artifactId).
      The id can be read back from the name. */
  function Dst(artifactId: int): (r: string)
    ensures |r| > 7 && r[..7] == "output/" && ParseInt(r[7..]) == artifactId
  {
    FormatIntRoundTrip(artifactId);
    var d := "output/" + FormatInt(artifactId);
    assert d[7..] == FormatInt(artifactId);
    d
  }

  /** The paths of the successive directories down a list of parts:
      "a", "a/b", "a/b/c" for ["a", "b", "c"]. */
  function Prefixes(parts: seq<string>): (r: seq<string>)
    ensures |r| == |parts|
  {
    seq(|parts|, k requires 0 <= k < |parts| => JoinSegs(parts[..k + 1]))
  }

  /** Some directory on the way is an existing file. */
  predicate Blocked(fs: FileSystem, dirs: seq<string>)
  {
    exists d :: d in dirs && d in fs && fs[d].File?
  }

  /** os.MkdirAll(path, perm): fails when a directory on the way down to path is a file;
      otherwise every missing one is created with perm and nothing else changes. */
  function MkdirAll(fs: FileSystem, path: string, perm: nat): (r: Option<FileSystem>)
    ensures r.None? <==> Blocked(fs, Prefixes(Split(path)))
    ensures r.Some? ==> forall d :: d in Prefixes(Split(path)) ==> d in r.value && r.value[d].Directory?
    ensures r.Some? ==> path in r.value && r.value[path].Directory?
    ensures r.Some? ==> forall k :: k in fs ==> k in r.value && r.value[k] == fs[k]
    ensures r.Some? ==> forall k :: k in r.value && k !in fs ==> k in Prefixes(Split(path)) && r.value[k] == Directory(perm)
  {
    var dirs := Prefixes(Split(path));
    JoinSplit(path);
    assert Split(path)[..|Split(path)|] == Split(path);
    assert dirs[|dirs| - 1] == path;
    if Blocked(fs, dirs) then None
    else Some(fs + map d | d in dirs && d !in fs :: Directory(perm))
  }

  /** os.OpenFile(path, O_WRONLY|O_CREATE|O_TRUNC, mode), and os.Create(path), which is the
      same with mode 0666: fails on a directory or when the parent directory is missing;
      otherwise the file at path exists and is empty (an existing one is truncated and keeps
      its permission bits), and nothing else changes. */
  function OpenFile(fs: FileSystem, path: string, mode: nat): (r: Option<FileSystem>)
    ensures r.Some? <==> (path !in fs || fs[path].File?) && Dir(path) in fs && fs[Dir(path)].Directory?
    ensures r.Some? ==> && r.value.Keys == fs.Keys + {path}
                        && r.value[path] == File(if path in fs then fs[path].mode else mode, [])
                        && forall k :: k in fs && k != path ==> r.value[k] == fs[k]
  {
    if path in fs && fs[path].Directory? then None
    else if Dir(path) !in fs || !fs[Dir(path)].Directory? then None
    else Some(fs[path := File(if path in fs then fs[path].mode else mode, [])])
  }

  // ---------------------------------------------------------------------------
  // The entry loop of unzip

  /** What one entry does: it continues with a new file system, it is rejected by the
      guard, or it panics (leaving the file system as it was at that point). */
  datatype StepResult = Next(fs: FileSystem) | Reject | Panic(fs: FileSystem)

  /** One iteration of unzip's loop. The target is filepath.Join(dst, name); the guard
      rejects it unless it starts with Clean(dst) and a separator. A directory entry creates
      its path, ignoring any error. A file entry creates its parent directory, creates or
      truncates the target with the entry's mode, and copies the contents into it; any of
      these failing panics, and a read failure panics after the target was truncated and
      the bytes read so far were written. */
  function ExtractEntry(dst: string, e: Entry, fs: FileSystem): (r: StepResult)
    ensures r.Reject? <==> !Confined(dst, e.name)
    ensures Confined(dst, e.name) && e.isDir ==> r.Next?
    ensures Confined(dst, e.name) && !e.isDir && e.contents.Corrupt? ==> r.Panic?
    ensures r.Next? && e.isDir && r.fs != fs ==> Join(dst, e.name) in r.fs && r.fs[Join(dst, e.name)].Directory?
    ensures r.Next? && !e.isDir ==> var p := Join(dst, e.name);
      && e.contents.Intact?
      && p in r.fs && r.fs[p] == File(if p in fs && fs[p].File? then fs[p].mode else e.mode, e.contents.bytes)
      && Dir(p) in r.fs && r.fs[Dir(p)].Directory?
  {
    var filePath := Join(dst, e.name);
    if !HasPrefix(filePath, Clean(dst) + "/") then Reject
    else if e.isDir then
      match MkdirAll(fs, filePath, ModePerm)
      case Some(made) => Next(made)
      case None => Next(fs)
    else
      match MkdirAll(fs, Dir(filePath), ModePerm)
      case None => Panic(fs)
      case Some(made) =>
        match OpenFile(made, filePath, e.mode)
        case None => Panic(made)
        case Some(truncated) =>
          var copied := truncated[filePath := File(truncated[filePath].mode, e.contents.bytes)];
          if e.contents.Corrupt? then Panic(copied) else Next(copied)
  }

  /** A file entry whose contents cannot be read is still created (or truncated) first, so
      the panic leaves the target holding only the bytes copied before the failure. */
  lemma CorruptEntryLeavesPartialFile(dst: string, e: Entry, fs: FileSystem)
    requires Confined(dst, e.name) && !e.isDir && e.contents.Corrupt?
    requires MkdirAll(fs, Dir(Join(dst, e.name)), ModePerm).Some?
    requires OpenFile(MkdirAll(fs, Dir(Join(dst, e.name)), ModePerm).value, Join(dst, e.name), e.mode).Some?
    ensures var r := ExtractEntry(dst, e, fs); var p := Join(dst, e.name);
      && r.Panic? && p in r.fs
      && r.fs[p] == File(if p in fs && fs[p].File? then fs[p].mode else e.mode, e.contents.bytes)
  {
    var p := Join(dst, e.name);
    var made := MkdirAll(fs, Dir(p), ModePerm).value;
    assert p in fs ==> p in made && made[p] == fs[p];
  }

  /** How unzip ended: all entries done, returned early at the entry with index at, or
      panicked. */
  datatype Outcome = Completed(fs: FileSystem) | Stopped(fs: FileSystem, at: nat) | Crashed(fs: FileSystem)

  /** The entries from index i on, processed in order; the first rejected one ends the loop
      without an error. */
  function Extract(dst: string, entries: seq<Entry>, fs: FileSystem, i: nat): (r: Outcome)
    requires i <= |entries|
    ensures r.Stopped? ==> i <= r.at < |entries| && !Confined(dst, entries[r.at].name)
    decreases |entries| - i
  {
    if i == |entries| then Completed(fs)
    else
      match ExtractEntry(dst, entries[i], fs)
      case Reject => Stopped(fs, i)
      case Panic(f) => Crashed(f)
      case Next(f) => Extract(dst, entries, f, i + 1)
  }

  /** unzip(artifactId): opens the staged archive (a missing, unreadable or undecodable one
      panics) and runs the entry loop into Dst(artifactId). */
  method Unzip(artifactId: Int64, fs: FileSystem, decode: seq<Byte> -> Option<seq<Entry>>) returns (out: Outcome)
    ensures Staging !in fs || fs[Staging].Directory? || decode(fs[Staging].data).None? ==> out == Crashed(fs)
    ensures Staging in fs && fs[Staging].File? && decode(fs[Staging].data).Some? ==>
      out == Extract(Dst(artifactId), decode(fs[Staging].data).value, fs, 0)
  {
    var dst := Dst(artifactId);
    if Staging !in fs || fs[Staging].Directory? {
      return Crashed(fs);
    }
    var archive := decode(fs[Staging].data);
    if archive.None? {
      return Crashed(fs);
    }
    var entries := archive.value;
    var current := fs;
    for i := 0 to |entries|
      invariant Extract(dst, entries, fs, 0) == Extract(dst, entries, current, i)
    {
      var f := entries[i];
      var filePath := Join(dst, f.name);
      if !HasPrefix(filePath, Clean(dst) + "/") {
        return Stopped(current, i);
      }
      if f.isDir {
        var made := MkdirAll(current, filePath, ModePerm);
        if made.Some? {
          current := made.value;
        }
        continue;
      }
      var made := MkdirAll(current, Dir(filePath), ModePerm);
      if made.None? {
        return Crashed(current);
      }
      var truncated := OpenFile(made.value, filePath, f.mode);
      if truncated.None? {
        return Crashed(made.value);
      }
      var copied := truncated.value[filePath := File(truncated.value[filePath].mode, f.contents.bytes)];
      if f.contents.Corrupt? {
        return Crashed(copied);
      }
      current := copied;
    }
    return Completed(current);
  }

  // ---------------------------------------------------------------------------
  // Stopping at the first rejected entry

  /** At the first rejected entry j the loop returns: the file system is the one the
      entries before j produced (their writes remain), and nothing after j is looked at. */
  lemma {:induction false} StopAt(dst: string, entries: seq<Entry>, fs: FileSystem, i: nat, j: nat)
    requires i <= j < |entries| && !Confined(dst, entries[j].name)
    ensures var before := Extract(dst, entries[..j], fs, i);
      Extract(dst, entries, fs, i) == (if before.Completed? then Stopped(before.fs, j) else before)
    decreases j - i
  {
    var prefix := entries[..j];
    if i == j {
      assert Extract(dst, prefix, fs, i) == Completed(fs);
      RejectedEntryStops(dst, entries, fs, j);
    } else {
      assert prefix[i] == entries[i];
      match ExtractEntry(dst, entries[i], fs)
      case Reject =>
      case Panic(f) =>
      case Next(f) => StopAt(dst, entries, f, i + 1, j);
    }
  }

  /** Reaching a rejected entry stops the loop there. */
  lemma RejectedEntryStops(dst: string, entries: seq<Entry>, fs: FileSystem, j: nat)
    requires j < |entries| && !Confined(dst, entries[j].name)
    ensures Extract(dst, entries, fs, j) == Stopped(fs, j)
  {
    assert ExtractEntry(dst, entries[j], fs).Reject?;
  }

  /** What follows a rejected entry never matters. */
  lemma LaterEntriesIgnored(dst: string, entries: seq<Entry>, fs: FileSystem, j: nat, rest: seq<Entry>)
    requires j < |entries| && !Confined(dst, entries[j].name)
    ensures Extract(dst, entries, fs, 0) == Extract(dst, entries[..j + 1] + rest, fs, 0)
  {
    var other := entries[..j + 1] + rest;
    assert other[..j] == entries[..j];
    assert other[j] == entries[j];
    StopAt(dst, entries, fs, 0, j);
    StopAt(dst, other, fs, 0, j);
  }

  // ---------------------------------------------------------------------------
  // Confinement

  /** The path k lies strictly below the base directory: it starts with the base and a
      separator, and every part of it is a plain child name (no empty part, no "." and no
      ".."), so it cannot climb back out. */
  predicate Below(base: seq<string>, k: string)
  {
    HasPrefix(k, JoinSegs(base) + "/") && Names(Split(k))
  }

  /** A path below a base of child names extends the base part by part. */
  lemma BelowExtendsBase(base: seq<string>, k: string)
    requires PlainBase(base) && Below(base, k)
    ensures StrictlyBelow(Split(k), base)
  {
    var b := JoinSegs(base);
    var rest := k[|b| + 1..];
    assert k == b + "/" + rest;
    SplitAppend(b, rest);
    SplitJoin(base);
    assert Split(k) == base + Split(rest);
    assert Split(k)[..|base|] == base;
  }

  /** After changes from before to after, every path that is new or changed is below the
      base directory, or is one of the directories leading to it and is a directory. No
      path disappears. */
  predicate Guarded(base: seq<string>, before: FileSystem, after: FileSystem)
  {
    && (forall k :: k in before ==> k in after)
    && (forall k :: k in after && (k !in before || after[k] != before[k]) ==>
          Below(base, k) || (k in Prefixes(base) && after[k].Directory?))
  }

  lemma GuardedTrans(base: seq<string>, a: FileSystem, b: FileSystem, c: FileSystem)
    requires Guarded(base, a, b) && Guarded(base, b, c)
    ensures Guarded(base, a, c)
  {
  }

  /** The directories leading to a path below the base are those leading to the base, or
      paths below the base. */
  lemma PrefixesOfDescendant(base: seq<string>, tail: seq<string>)
    requires |base| >= 1 && |tail| >= 1 && Names(base + tail)
    ensures forall d :: d in Prefixes(base + tail) ==> d in Prefixes(base) || Below(base, d)
  {
    var t := base + tail;
    var ps := Prefixes(t);
    forall k | 0 <= k < |t|
      ensures ps[k] in Prefixes(base) || Below(base, ps[k])
    {
      if k < |base| {
        assert t[..k + 1] == base[..k + 1];
        assert ps[k] == Prefixes(base)[k];
      } else {
        var below := tail[..k + 1 - |base|];
        assert t[..k + 1] == base + below;
        JoinSegsAppend(base, below);
        var x := JoinSegs(base) + "/";
        assert (x + JoinSegs(below))[..|x|] == x;
        SplitJoin(t[..k + 1]);
      }
    }
  }

  /** The directories leading to the parent of a path lead to the path too. */
  lemma PrefixesOfInit(t: seq<string>)
    requires |t| >= 1
    ensures forall d :: d in Prefixes(t[..|t| - 1]) ==> d in Prefixes(t)
  {
    var init := t[..|t| - 1];
    forall k | 0 <= k < |init| ensures Prefixes(init)[k] == Prefixes(t)[k] {
      assert init[..k + 1] == t[..k + 1];
    }
  }

  /** The shape of an accepted entry's target: the base followed by child names. */
  lemma AcceptedTarget(base: seq<string>, name: string)
    requires PlainBase(base) && Confined(JoinSegs(base), name)
    ensures var t := Target(base, name);
      && |t| > |base| && t[..|base|] == base && Names(t)
      && Join(JoinSegs(base), name) == JoinSegs(t)
      && Split(JoinSegs(t)) == t
      && HasPrefix(JoinSegs(t), JoinSegs(base) + "/")
  {
    var t := Target(base, name);
    ConfinedIsDescendant(base, name);
    var tail := t[|base|..];
    assert t == base + tail;
    JoinSegsAppend(base, tail);
    assert forall i :: 0 <= i < |t| ==> Name(t[i]) by {
      forall i | 0 <= i < |t| ensures Name(t[i]) {
        if i >= |base| {
          assert t[i] == tail[i - |base|];
        }
      }
    }
    SplitJoin(t);
  }

  /** Creating the directories down to a path at or below the base stays guarded. */
  lemma MkdirAllGuarded(base: seq<string>, fs: FileSystem, t: seq<string>, perm: nat)
    requires |base| >= 1 && |t| >= |base| && t[..|base|] == base && Names(t)
    requires MkdirAll(fs, JoinSegs(t), perm).Some?
    ensures Guarded(base, fs, MkdirAll(fs, JoinSegs(t), perm).value)
  {
    SplitJoin(t);
    if |t| == |base| {
      assert t == base;
    } else {
      assert t == base + t[|base|..];
      PrefixesOfDescendant(base, t[|base|..]);
    }
  }

  /** The parent of a path of child names below a plain base is the path without its last
      part, and it is at or below the base. */
  lemma ParentOfTarget(base: seq<string>, t: seq<string>)
    requires PlainBase(base) && |t| > |base| && t[..|base|] == base && Names(t)
    ensures Dir(JoinSegs(t)) == JoinSegs(t[..|t| - 1])
    ensures |t[..|t| - 1]| >= |base| && t[..|t| - 1][..|base|] == base && Names(t[..|t| - 1])
  {
    var init := t[..|t| - 1];
    assert PlainBase(init);
    DirDropsLast(t);
  }

  /** One entry only touches paths below the base and the directories leading to it. */
  lemma ExtractEntryGuarded(base: seq<string>, e: Entry, fs: FileSystem)
    requires PlainBase(base)
    ensures var r := ExtractEntry(JoinSegs(base), e, fs); !r.Reject? ==> Guarded(base, fs, r.fs)
  {
    var dst := JoinSegs(base);
    if Confined(dst, e.name) {
      AcceptedTarget(base, e.name);
      var t := Target(base, e.name);
      var p := JoinSegs(t);
      if e.isDir {
        if MkdirAll(fs, p, ModePerm).Some? {
          MkdirAllGuarded(base, fs, t, ModePerm);
        }
      } else {
        ParentOfTarget(base, t);
        var made := MkdirAll(fs, Dir(p), ModePerm);
        if made.Some? {
          MkdirAllGuarded(base, fs, t[..|t| - 1], ModePerm);
          var truncated := OpenFile(made.value, p, e.mode);
          if truncated.Some? {
            assert Below(base, p);
            var copied := truncated.value[p := File(truncated.value[p].mode, e.contents.bytes)];
            assert Guarded(base, made.value, copied);
            GuardedTrans(base, fs, made.value, copied);
          }
        }
      }
    }
  }

  /** The whole loop only touches paths below the base and the directories leading to it. */
  lemma {:induction false} ExtractGuarded(base: seq<string>, entries: seq<Entry>, fs: FileSystem, i: nat)
    requires PlainBase(base) && i <= |entries|
    ensures Guarded(base, fs, Extract(JoinSegs(base), entries, fs, i).fs)
    decreases |entries| - i
  {
    if i < |entries| {
      ExtractEntryGuarded(base, entries[i], fs);
      var r := ExtractEntry(JoinSegs(base), entries[i], fs);
      if r.Next? {
        ExtractGuarded(base, entries, r.fs, i + 1);
        GuardedTrans(base, fs, r.fs, Extract(JoinSegs(base), entries, r.fs, i + 1).fs);
      }
    }
  }

  /** The extraction directory of an artifact, as parts. */
  lemma DstParts(artifactId: int)
    ensures PlainBase(["output", FormatInt(artifactId)])
    ensures JoinSegs(["output", FormatInt(artifactId)]) == Dst(artifactId)
    ensures Prefixes(["output", FormatInt(artifactId)]) == ["output", Dst(artifactId)]
  {
    FormatIntShape(artifactId);
    var base := ["output", FormatInt(artifactId)];
    assert base[..1] == ["output"];
    assert base[..2] == base;
  }

  /** An absolute entry name is not rejected: filepath.Join puts it under the destination,
      so "/" + rel, for a rel made of plain names such as "etc/passwd", is written to
      output/<artifactId>/rel. */
  lemma AbsoluteNameIsConfined(artifactId: int, rel: string)
    requires Names(Split(rel))
    ensures Confined(Dst(artifactId), "/" + rel)
    ensures Join(Dst(artifactId), "/" + rel) == Dst(artifactId) + "/" + rel
  {
    DstParts(artifactId);
    var base := ["output", FormatInt(artifactId)];
    var parts := Split(rel);
    TargetOfRootedName(base, rel);
    ConfinedIffBelow(base, "/" + rel);
    JoinIsTarget(base, "/" + rel);
    JoinSegsAppend(base, parts);
    JoinSplit(rel);
  }

  /** The empty first part of a rooted name is dropped under a relative base, and plain
      names are appended to it. */
  lemma TargetOfRootedName(base: seq<string>, rel: string)
    requires Names(Split(rel))
    ensures Target(base, "/" + rel) == base + Split(rel)
  {
    SplitAppend("", rel);
    assert "/" + rel == "" + "/" + rel;
    assert Split("") == [""];
    NormalizeAppend(base, [""], Split(rel), false);
    assert Normalize(base, [""], false) == base;
    NormalizeNames(base, Split(rel), false);
  }

  /** Zip-slip protection: extracting any archive for an artifact, whether it completes,
      stops at a rejected entry or panics, changes nothing outside output/<artifactId>/
      except, possibly, creating the directories "output" and output/<artifactId>
      themselves. Every path written starts with output/<artifactId>/ and is made of plain
      child names only, so none climbs back out through "..". */
  lemma ExtractionStaysInside(artifactId: int, entries: seq<Entry>, fs: FileSystem)
    ensures var out := Extract(Dst(artifactId), entries, fs, 0).fs;
      && (forall k :: k in fs ==> k in out)
      && (forall k :: k in out && (k !in fs || out[k] != fs[k]) ==>
            (HasPrefix(k, Dst(artifactId) + "/") && Names(Split(k)))
            || ((k == "output" || k == Dst(artifactId)) && out[k].Directory?))
  {
    DstParts(artifactId);
    ExtractGuarded(["output", FormatInt(artifactId)], entries, fs, 0);
  }

  // ---------------------------------------------------------------------------
  // DownloadArtifact

  /** downloadZip's preparation and copy: "output" is created, output/file.zip is created
      empty (or truncated) and then holds the downloaded body. */
  function StageArchive(fs: FileSystem, body: seq<Byte>): (r: Option<FileSystem>)
    ensures r.Some? ==> Staging in r.value && r.value[Staging].File? && r.value[Staging].data == body
  {
    match MkdirAll(fs, "output", OutputPerm)
    case None => None
    case Some(made) =>
      match OpenFile(made, Staging, CreatePerm)
      case None => None
      case Some(created) => Some(created[Staging := File(created[Staging].mode, body)])
  }

  /** DownloadArtifact(organization, repository, artifactId). location is the provider's
      answer to the request for the archive's URL; get stands for http.Get. The staging
      directory and file are created, the body is copied into the file, and the archive is
      extracted. Every failure on the way ends the process; an archive that the guard stops
      early is not an error. */
  method DownloadArtifact(artifactId: Int64, location: Reply<string>, get: string -> Reply<seq<Byte>>,
                          fs: FileSystem, decode: seq<Byte> -> Option<seq<Entry>>)
    returns (s: Status<()>, after: FileSystem)
    ensures !s.Failed?
    ensures location.Err? ==> s == Exited && after == fs
    ensures s.Returned? <==>
      && location.Ok? && get(location.value).Ok?
      && StageArchive(fs, get(location.value).value).Some?
      && decode(get(location.value).value).Some?
      && !Extract(Dst(artifactId), decode(get(location.value).value).value,
                  StageArchive(fs, get(location.value).value).value, 0).Crashed?
    ensures s.Returned? ==>
      after == Extract(Dst(artifactId), decode(get(location.value).value).value,
                       StageArchive(fs, get(location.value).value).value, 0).fs
  {
    if location.Err? {
      return Exited, fs;
    }
    var made := MkdirAll(fs, "output", OutputPerm);
    if made.None? {
      return Exited, fs;
    }
    var created := OpenFile(made.value, Staging, CreatePerm);
    if created.None? {
      return Exited, made.value;
    }
    var body := get(location.value);
    if body.Err? {
      return Exited, created.value;
    }
    var staged := created.value[Staging := File(created.value[Staging].mode, body.value)];
    assert staged == StageArchive(fs, body.value).value;
    var out := Unzip(artifactId, staged, decode);
    if out.Crashed? {
      return Exited, out.fs;
    }
    return Returned(()), out.fs;
  }
}
