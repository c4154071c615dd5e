/** A file replaced by writing a sibling and renaming it over the target. */
module AtomicFile {
  import opened LeaseModel

  /** The step of the write that fails, if one does; a failed write may keep some first part of the data. */
  datatype Fault = NoFault | WriteFails(kept: nat) | ChmodFails | RenameFails

  datatype Inode<T> = Inode(data: seq<T>, mode: nat)

  class ReplacedFile<T> {
    var target: Option<Inode<T>>
    var tmp: Option<Inode<T>>
    /** The target as a crash would leave it, after every step so far. */
    ghost var seen: seq<Option<Inode<T>>>

    constructor (target: Option<Inode<T>>)
      ensures this.target == target && tmp == None && seen == []
    {
      this.target := target;
      tmp := None;
      seen := [];
    }

    /** The commit point is the rename: at every step the target is the old file or the whole new one with the
        asked mode, it is the new one on return exactly when no step failed, and a failed rename leaves no sibling. */
    method Write(data: seq<T>, mode: nat, umasked: nat, fault: Fault) returns (ok: bool)
      modifies this
      ensures ok <==> fault.NoFault?
      ensures target == if ok then Some(Inode(data, mode)) else old(target)
      ensures old(seen) < seen && seen[|seen| - 1] == target
      ensures |seen| == |old(seen)| + if fault.NoFault? || fault.RenameFails? then 4 else 2
      ensures forall i :: |old(seen)| <= i < |seen| - 1 ==> seen[i] == old(target)
      ensures ok || fault.RenameFails? ==> tmp == None
    {
      // an existing sibling is truncated and keeps its mode; the umask cuts the mode of a new one
      var m := if tmp.Some? then tmp.value.mode else umasked;
      tmp := Some(Inode([], m));
      seen := seen + [target];
      if fault.WriteFails? {
        tmp := Some(Inode(data[..if fault.kept < |data| then fault.kept else |data|], m));
        seen := seen + [target];
        return false;
      }
      tmp := Some(Inode(data, m));
      seen := seen + [target];
      if fault.ChmodFails? {
        return false;
      }
      tmp := Some(Inode(data, mode));
      seen := seen + [target];
      if fault.RenameFails? {
        tmp := None;
        seen := seen + [target];
        return false;
      }
      target, tmp := tmp, None;
      seen := seen + [target];
      return true;
    }
  }
}
