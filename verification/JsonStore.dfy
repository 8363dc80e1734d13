/** internal/store/jsonfile.go: a value kept in one file, replaced by writing a temporary
    file and renaming it. Every step may fail, and the process may die at any step. */
module JsonStore {
  import opened Options

  type Bytes = seq<bv8>

  /** Where one Save stops. A write that fails or is cut short leaves any bytes at all in the
      temporary file, or does not open it; rename is atomic. */
  datatype Fault =
    | NoFault
    | MkdirFails
    | EncodeFails
    | WriteFails(left: Option<Bytes>)
    | DiesWriting(left: Option<Bytes>)
    | RenameFails
    | DiesBeforeRename
    | DiesAfterRename

  datatype Outcome = Saved | Failed | Died

  function OutcomeOf(fault: Fault): Outcome {
    match fault
    case NoFault => Saved
    case DiesWriting(_) => Died
    case DiesBeforeRename => Died
    case DiesAfterRename => Died
    case _ => Failed
  }

  /** Whether the new contents reached their place. */
  predicate Commits(fault: Fault) {
    fault.NoFault? || fault.DiesAfterRename?
  }

  function TmpPath(path: string): (tmp: string)
    ensures tmp != path
  {
    path + ".tmp"
  }

  /** What reading a file yields: the default if it is missing, an error if it does not decode. */
  function LoadFrom<T>(files: map<string, Bytes>, path: string, decode: Bytes -> Option<T>, default: T): Result<T, ()> {
    if path !in files then Ok(default)
    else
      match decode(files[path])
      case Some(v) => Ok(v)
      case None => Err(())
  }

  /** Whatever happens, the file holds its old bytes or the whole new value, the new value
      exactly when the rename was reached, and only it and the temporary file are touched. */
  ghost predicate SaveLeaves(before: map<string, Bytes>, after: map<string, Bytes>, path: string, data: Bytes, fault: Fault) {
    && (forall other | other != path && other != TmpPath(path) ::
          (other in after <==> other in before) && (other in before ==> after[other] == before[other]))
    && if Commits(fault) then path in after && after[path] == data
       else (path in after <==> path in before) && (path in before ==> after[path] == before[path])
  }

  class Disk {
    var files: map<string, Bytes>

    constructor ()
      ensures files == map[]
    {
      files := map[];
    }

    /** os.WriteFile; `left` says what an unfinished write leaves, None if it never opened. */
    method WriteFile(path: string, data: Bytes, finished: bool, left: Option<Bytes>)
      modifies this
      ensures finished ==> files == old(files)[path := data]
      ensures !finished ==> files == if left.Some? then old(files)[path := left.value] else old(files)
    {
      if finished {
        files := files[path := data];
      } else if left.Some? {
        files := files[path := left.value];
      }
    }

    method Rename(from: string, to: string)
      requires from in files && from != to
      modifies this
      ensures files == (old(files) - {from})[to := old(files)[from]]
    {
      files := (files - {from})[to := files[from]];
    }
  }

  class JsonFile<T(!new)> {
    const path: string
    const encode: T -> Bytes
    const decode: Bytes -> Option<T>
    const disk: Disk

    /** JSON decoding inverts JSON encoding. */
    ghost predicate Valid() {
      forall v :: decode(encode(v)) == Some(v)
    }

    constructor (path: string, encode: T -> Bytes, decode: Bytes -> Option<T>, disk: Disk)
      requires forall v :: decode(encode(v)) == Some(v)
      ensures Valid() && this.path == path && this.disk == disk
      ensures this.encode == encode && this.decode == decode
    {
      this.path := path;
      this.encode := encode;
      this.decode := decode;
      this.disk := disk;
    }

    /** `readable` is false when the read fails for any reason but a missing file. */
    method Load(default: T, readable: bool) returns (r: Result<T, ()>)
      ensures readable ==> r == LoadFrom(disk.files, path, decode, default)
      ensures readable && path !in disk.files ==> r == Ok(default)
      ensures readable && path in disk.files ==>
                if decode(disk.files[path]).Some? then r == Ok(decode(disk.files[path]).value) else r == Err(())
      ensures !readable ==> r == Err(())
    {
      if !readable {
        return Err(());
      }
      if path !in disk.files {
        return Ok(default);
      }
      var v := decode(disk.files[path]);
      r := if v.Some? then Ok(v.value) else Err(());
    }

    method Save(v: T, fault: Fault) returns (outcome: Outcome)
      modifies disk
      ensures outcome == OutcomeOf(fault)
      ensures SaveLeaves(old(disk.files), disk.files, path, encode(v), fault)
    {
      if fault.MkdirFails? || fault.EncodeFails? {
        return Failed;
      }
      var tmp := TmpPath(path);
      if fault.WriteFails? || fault.DiesWriting? {
        disk.WriteFile(tmp, encode(v), false, fault.left);
        return OutcomeOf(fault);
      }
      disk.WriteFile(tmp, encode(v), true, None);
      if fault.RenameFails? || fault.DiesBeforeRename? {
        return OutcomeOf(fault);
      }
      disk.Rename(tmp, path);
      outcome := OutcomeOf(fault);
    }
  }

  /** The last value whose save reached its rename. */
  function LastCommitted<T>(saves: seq<(T, Fault)>): Option<T> {
    if saves == [] then None
    else
      var last := saves[|saves| - 1];
      if Commits(last.1) then Some(last.0) else LastCommitted(saves[..|saves| - 1])
  }

  /** Crash-atomic persistence: after any sequence of saves through one file, each stopped at
      any step, a Load answers the last value whose rename was reached, or else what it would
      have answered before them all. `disks` are the files between the saves. */
  lemma {:induction false} LoadAfterAnySaves<T(!new)>(
      disks: seq<map<string, Bytes>>, saves: seq<(T, Fault)>, path: string,
      encode: T -> Bytes, decode: Bytes -> Option<T>, default: T)
    requires forall v :: decode(encode(v)) == Some(v)
    requires |disks| == |saves| + 1
    requires forall i | 0 <= i < |saves| ::
               SaveLeaves(disks[i], disks[i + 1], path, encode(saves[i].0), saves[i].1)
    ensures LoadFrom(disks[|saves|], path, decode, default) ==
            match LastCommitted(saves)
            case Some(v) => Ok(v)
            case None => LoadFrom(disks[0], path, decode, default)
  {
    if saves != [] {
      var n := |saves| - 1;
      LoadAfterAnySaves(disks[..n + 1], saves[..n], path, encode, decode, default);
      assert SaveLeaves(disks[n], disks[n + 1], path, encode(saves[n].0), saves[n].1);
    }
  }

  /** What the caller of Save can conclude: success means the value is in place, an error
      means it is not, and only a process that died leaves the choice open. */
  lemma OutcomeTellsWhetherCommitted<T(!new)>(
      before: map<string, Bytes>, after: map<string, Bytes>, path: string, v: T, fault: Fault,
      encode: T -> Bytes, decode: Bytes -> Option<T>, default: T)
    requires forall x :: decode(encode(x)) == Some(x)
    requires SaveLeaves(before, after, path, encode(v), fault)
    ensures OutcomeOf(fault) == Saved ==> LoadFrom(after, path, decode, default) == Ok(v)
    ensures OutcomeOf(fault) == Failed ==>
              LoadFrom(after, path, decode, default) == LoadFrom(before, path, decode, default)
    ensures LoadFrom(after, path, decode, default) in {Ok(v), LoadFrom(before, path, decode, default)}
  {
  }

  /** Left-over bytes in the temporary file are never observed: disks that differ only there
      load alike after the same saves. */
  lemma StaleTmpIsNeverObserved<T(!new)>(
      disks: seq<map<string, Bytes>>, others: seq<map<string, Bytes>>, saves: seq<(T, Fault)>, path: string,
      encode: T -> Bytes, decode: Bytes -> Option<T>, default: T)
    requires forall v :: decode(encode(v)) == Some(v)
    requires |disks| == |others| == |saves| + 1
    requires forall i | 0 <= i < |saves| ::
               && SaveLeaves(disks[i], disks[i + 1], path, encode(saves[i].0), saves[i].1)
               && SaveLeaves(others[i], others[i + 1], path, encode(saves[i].0), saves[i].1)
    requires disks[0] - {TmpPath(path)} == others[0] - {TmpPath(path)}
    ensures LoadFrom(disks[|saves|], path, decode, default) == LoadFrom(others[|saves|], path, decode, default)
  {
    LoadAfterAnySaves(disks, saves, path, encode, decode, default);
    LoadAfterAnySaves(others, saves, path, encode, decode, default);
    assert path in disks[0] <==> path in disks[0] - {TmpPath(path)};
    assert path in others[0] <==> path in others[0] - {TmpPath(path)};
    assert path in disks[0] ==> disks[0][path] == (disks[0] - {TmpPath(path)})[path];
    assert path in others[0] ==> others[0][path] == (others[0] - {TmpPath(path)})[path];
  }
}
