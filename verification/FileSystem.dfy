/** The directory of one session: a map from names to contents, changed by primitive operations
    each of which is one step a crash can separate from the next. */
module FileSystem {

  datatype LogKind = Audit | ClientEvents

  /** `Log(kind, 0)` is the active log, `Log(kind, i)` its backup `.i`; `Tmp(p)` is `p` with `.tmp`. */
  datatype Name = Sess | Json | Log(kind: LogKind, index: nat) | Tmp(of: Name)

  type Files = map<Name, string>

  /** A rename fails when its source is missing, or when the platform does not replace an existing
      target. */
  predicate RenameSucceeds(fs: Files, src: Name, dst: Name, overwrites: bool)
  {
    src in fs && (overwrites || dst !in fs)
  }

  function Renamed(fs: Files, src: Name, dst: Name): Files
    requires src in fs && src != dst
  {
    (fs - {src})[dst := fs[src]]
  }

  /** The states the directory passes through while `data` is appended to `n` byte by byte. */
  function AppendStates(fs: Files, n: Name, data: string): (states: seq<Files>)
    requires n in fs
    ensures |states| == |data|
    ensures forall k :: 0 <= k < |data| ==> states[k] == fs[n := fs[n] + data[..k + 1]]
  {
    seq(|data|, k requires 0 <= k < |data| => fs[n := fs[n] + data[..k + 1]])
  }

  lemma OneMoreByte(fs: Files, n: Name, data: string, i: nat)
    requires n in fs && i < |data|
    ensures AppendStates(fs, n, data)[..i + 1] == AppendStates(fs, n, data)[..i] + [fs[n := fs[n] + data[..i + 1]]]
    ensures fs[n := fs[n] + data[..i]][n := (fs[n] + data[..i]) + [data[i]]] == fs[n := fs[n] + data[..i + 1]]
  {
    assert (fs[n] + data[..i]) + [data[i]] == fs[n] + data[..i + 1];
  }

  /** The states passed through by renaming `src` to `dst`, removing `dst` first where the platform
      would refuse to replace it. */
  function ReplaceStates(fs: Files, src: Name, dst: Name, overwrites: bool): seq<Files>
    requires src in fs && src != dst
  {
    (if RenameSucceeds(fs, src, dst, overwrites) then [] else [fs - {dst}]) + [Renamed(fs, src, dst)]
  }

  class Disk {
    var files: Files
    const renameReplaces: bool
    ghost var trace: seq<Files>  // every state of the directory so far, the newest last

    ghost predicate Valid()
      reads this
    {
      trace != [] && trace[|trace| - 1] == files
    }

    constructor (files: Files, renameReplaces: bool)
      ensures Valid() && this.files == files && this.renameReplaces == renameReplaces
      ensures trace == [files]
    {
      this.files := files;
      this.renameReplaces := renameReplaces;
      trace := [files];
    }

    method Truncate(n: Name)
      requires Valid()
      modifies this
      ensures Valid() && files == old(files)[n := ""]
      ensures trace == old(trace) + [files]
    {
      files := files[n := ""];
      trace := trace + [files];
    }

    /** Opens `n` for appending (creating it when missing) and writes `data`. */
    method Append(n: Name, data: string)
      requires Valid()
      modifies this
      ensures Valid()
      ensures n in old(files) ==>
        files == old(files)[n := old(files)[n] + data] && trace == old(trace) + AppendStates(old(files), n, data)
      ensures n !in old(files) ==>
        files == old(files)[n := data]
        && trace == old(trace) + [old(files)[n := ""]] + AppendStates(old(files)[n := ""], n, data)
    {
      if n !in files {
        files := files[n := ""];
        trace := trace + [files];
      }
      ghost var start, before := files, trace;
      assert start[n] + data[..0] == start[n];
      assert start == start[n := start[n] + data[..0]];
      for i := 0 to |data|
        invariant Valid() && n in files
        invariant files == start[n := start[n] + data[..i]]
        invariant trace == before + AppendStates(start, n, data)[..i]
      {
        OneMoreByte(start, n, data, i);
        files := files[n := files[n] + [data[i]]];
        trace := trace + [files];
      }
      assert data[..|data|] == data;
      assert AppendStates(start, n, data)[..|data|] == AppendStates(start, n, data);
      assert "" + data == data;
      assert old(files)[n := ""][n := data] == old(files)[n := data];
    }

    method Remove(n: Name)
      requires Valid()
      modifies this
      ensures Valid() && files == old(files) - {n}
      ensures trace == old(trace) + (if n in old(files) then [files] else [])
    {
      if n in files {
        files := files - {n};
        trace := trace + [files];
      }
    }

    method Rename(src: Name, dst: Name) returns (ok: bool)
      requires Valid() && src != dst
      modifies this
      ensures Valid()
      ensures ok == RenameSucceeds(old(files), src, dst, renameReplaces)
      ensures ok ==> files == Renamed(old(files), src, dst) && trace == old(trace) + [files]
      ensures !ok ==> files == old(files) && trace == old(trace)
    {
      ok := RenameSucceeds(files, src, dst, renameReplaces);
      if ok {
        files := Renamed(files, src, dst);
        trace := trace + [files];
      }
    }

    /** Rename, and when that fails remove the target and rename once more. */
    method RenameOrReplace(src: Name, dst: Name) returns (ok: bool)
      requires Valid() && src != dst
      modifies this
      ensures Valid() && ok == (src in old(files))
      ensures ok ==> files == Renamed(old(files), src, dst)
      ensures ok ==> trace == old(trace) + ReplaceStates(old(files), src, dst, renameReplaces)
      ensures !ok ==> files == old(files) - {dst}
    {
      ok := Rename(src, dst);
      if !ok {
        Remove(dst);
        assert src in old(files) ==> Renamed(files, src, dst) == Renamed(old(files), src, dst);
        ok := Rename(src, dst);
      }
    }
  }
}
