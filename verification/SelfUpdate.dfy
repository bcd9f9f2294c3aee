/**
 The in-place update of the running service and its rollback, as operations on six paths of a file
 system. Any operation may fail and the process may die between any two of them; only a single
 rename is atomic.
 */
module SelfUpdate {
  import opened Outcomes

  datatype Path = Bin | BinNew | BinBak | Web | WebNew | WebBak

  datatype Node = File(content: string) | Dir(entries: map<string, string>)

  type Tree = map<Path, Node>

  /** What the environment lets happen: commands and renames that succeed, what copies and removals leave behind. */
  datatype UpdateEnv = UpdateEnv(
    pull: bool, create: bool,
    copiedBin: Option<Node>, copyBin: bool, copiedWeb: Option<Node>,
    removeBinBak: bool, backupBin: bool,
    leftOfWebBak: Option<Node>, backupWeb: bool,
    installBin: bool, restoreBin: bool, installWeb: bool)

  datatype RollbackEnv = RollbackEnv(restoreBin: bool, leftOfWeb: Option<Node>, restoreWeb: bool)

  datatype Failure = PullFailed | CreateFailed | CopyFailed | BackupFailed | InstallFailed | NoBackup | RestoreFailed

  /** os.Rename: the source exists, and the target is absent or both are files. Unlike rename(2) it refuses
      every target that is a directory, even an empty one. */
  predicate CanRename(t: Tree, src: Path, dst: Path) {
    src in t && src != dst && (dst !in t || (t[src].File? && t[dst].File?))
  }

  function Renamed(t: Tree, src: Path, dst: Path, ok: bool): Tree {
    if ok && CanRename(t, src, dst) then (t - {src})[dst := t[src]] else t
  }

  function Put(t: Tree, p: Path, node: Option<Node>): Tree {
    match node case Some(n) => t[p := n] case None => t - {p}
  }

  class FileSystem {
    var nodes: Tree
    ghost var history: seq<Tree>  // every state a crash could leave behind

    method Rename(src: Path, dst: Path, ok: bool) returns (done: bool)
      modifies this
      ensures nodes == Renamed(old(nodes), src, dst, ok) && done == (ok && CanRename(old(nodes), src, dst))
      ensures history == old(history) + [nodes]
    {
      done := ok && CanRename(nodes, src, dst);
      if done {
        nodes := (nodes - {src})[dst := nodes[src]];
      }
      history := history + [nodes];
    }

    /** docker cp, which may leave anything at its target. */
    method CopyInto(p: Path, outcome: Option<Node>)
      modifies this
      ensures nodes == Put(old(nodes), p, outcome) && history == old(history) + [nodes]
    {
      nodes := match outcome case Some(n) => nodes[p := n] case None => nodes - {p};
      history := history + [nodes];
    }

    method Remove(p: Path, ok: bool)
      modifies this
      ensures nodes == (if ok then old(nodes) - {p} else old(nodes)) && history == old(history) + [nodes]
    {
      if ok {
        nodes := nodes - {p};
      }
      history := history + [nodes];
    }

    /** os.RemoveAll: may stop half way and leave part of the tree; an absent tree stays absent. */
    method RemoveAll(p: Path, left: Option<Node>)
      modifies this
      ensures nodes == (if p in old(nodes) then Put(old(nodes), p, left) else old(nodes))
      ensures history == old(history) + [nodes]
    {
      if p in nodes {
        nodes := match left case Some(n) => nodes[p := n] case None => nodes - {p};
      }
      history := history + [nodes];
    }
  }

  /** The old binary can still be found where the service or a rollback looks for it. */
  predicate KeepsBinary(t: Tree, binary: Node) {
    (Bin in t && t[Bin] == binary) || (BinBak in t && t[BinBak] == binary)
  }

  ghost predicate AllKeepBinary(history: seq<Tree>, from: nat, binary: Node) {
    forall i :: from <= i < |history| ==> KeepsBinary(history[i], binary)
  }

  // ---------- the result of each procedure, as a function ----------

  function BackedUpWeb(t: Tree, e: UpdateEnv): Tree {
    if Web !in t then t else
      Renamed(if WebBak in t then Put(t, WebBak, e.leftOfWebBak) else t, Web, WebBak, e.backupWeb)
  }

  function BackedUpBin(t: Tree, e: UpdateEnv): (Tree, bool) {
    if Bin !in t then (t, true) else
      var cleared := if e.removeBinBak then t - {BinBak} else t;
      (Renamed(cleared, Bin, BinBak, e.backupBin), e.backupBin && CanRename(cleared, Bin, BinBak))
  }

  function Installed(t: Tree, e: UpdateEnv): (Tree, Option<Failure>) {
    if !(e.installBin && CanRename(t, BinNew, Bin))
    then (Renamed(t, BinBak, Bin, e.restoreBin), Some(InstallFailed))
    else
      var t' := Renamed(t, BinNew, Bin, e.installBin);
      (if WebNew in t' then Renamed(t', WebNew, Web, e.installWeb) else t', None)
  }

  function Updated(t: Tree, e: UpdateEnv): (Tree, Option<Failure>) {
    if !e.pull then (t, Some(PullFailed))
    else if !e.create then (t, Some(CreateFailed))
    else
      var t1 := Put(t, BinNew, e.copiedBin);
      if !e.copyBin then (t1, Some(CopyFailed)) else
      var (t2, saved) := BackedUpBin(Put(t1, WebNew, e.copiedWeb), e);
      if !saved then (t2, Some(BackupFailed)) else Installed(BackedUpWeb(t2, e), e)
  }

  function RolledBack(t: Tree, e: RollbackEnv): (Tree, Option<Failure>) {
    if BinBak !in t then (t, Some(NoBackup))
    else if !(e.restoreBin && CanRename(t, BinBak, Bin)) then (t, Some(RestoreFailed))
    else
      var t1 := Renamed(t, BinBak, Bin, true);
      var t2 := if WebBak in t1 && Web in t1 then Put(t1, Web, e.leftOfWeb) else t1;
      (if WebBak in t1 then Renamed(t2, WebBak, Web, e.restoreWeb) else t2, None)
  }

  // ---------- when an update succeeds, and what it then has done ----------

  /** Everything needed worked: the image, the copy, the backup of a binary that is there, the install. */
  predicate CanSucceed(t: Tree, e: UpdateEnv) {
    && e.pull && e.create && e.copyBin && e.copiedBin.Some? && e.installBin
    && (Bin in t ==>
          && e.backupBin
          && (BinBak !in t || e.removeBinBak || (t[Bin].File? && t[BinBak].File?)))
  }

  /** The new binary is live and the old one, if there was one, is the backup; the new web tree is live if there was
      none before. */
  predicate IsLive(t: Tree, t': Tree, e: UpdateEnv) {
    && e.copiedBin.Some? && Bin in t' && t'[Bin] == e.copiedBin.value && BinNew !in t'
    && (Bin in t ==> BinBak in t' && t'[BinBak] == t[Bin])
    && (Web !in t && e.copiedWeb.Some? && e.installWeb ==> Web in t' && t'[Web] == e.copiedWeb.value)
  }

  lemma BinStepsAside(t: Tree, e: UpdateEnv)
    ensures var (saved, ok) := BackedUpBin(t, e);
      && (ok <==> (Bin in t ==> e.backupBin && (BinBak !in t || e.removeBinBak || (t[Bin].File? && t[BinBak].File?))))
      && (ok ==> At(saved, Bin) == None && (Bin in t ==> At(saved, BinBak) == Some(t[Bin])))
  {
  }

  lemma WebBackupKeepsBin(t: Tree, e: UpdateEnv)
    ensures var t' := BackedUpWeb(t, e);
      && At(t', Bin) == At(t, Bin) && At(t', BinBak) == At(t, BinBak)
      && At(t', BinNew) == At(t, BinNew) && At(t', WebNew) == At(t, WebNew)
      && (Web !in t ==> Web !in t')
  {
  }

  lemma InstallGoesLive(t: Tree, e: UpdateEnv)
    requires Bin !in t
    ensures var (t', err) := Installed(t, e);
      && (err == None <==> e.installBin && BinNew in t)
      && (err == None ==>
            && At(t', Bin) == At(t, BinNew) && BinNew !in t' && At(t', BinBak) == At(t, BinBak)
            && (Web !in t && WebNew in t && e.installWeb ==> At(t', Web) == At(t, WebNew)))
  {
  }

  lemma UpdateGoesLive(t: Tree, e: UpdateEnv)
    ensures Updated(t, e).1 == None <==> CanSucceed(t, e)
    ensures Updated(t, e).1 == None ==> IsLive(t, Updated(t, e).0, e)
  {
    var copied := Put(Put(t, BinNew, e.copiedBin), WebNew, e.copiedWeb);
    BinStepsAside(copied, e);
    BinBackupKeepsWeb(copied, e);
    var (saved, ok) := BackedUpBin(copied, e);
    hide BackedUpBin, BackedUpWeb, Installed;
    if ok {
      WebBackupKeepsBin(saved, e);
      InstallGoesLive(BackedUpWeb(saved, e), e);
    }
  }

  // ---------- the code ----------

  /** Step 4: the old binary and then the old web tree step aside; only the binary's failure counts. */
  method BackUp(fs: FileSystem, e: UpdateEnv) returns (saved: bool)
    modifies fs
    ensures var (t, ok) := BackedUpBin(old(fs.nodes), e); saved == ok && fs.nodes == if ok then BackedUpWeb(t, e) else t
    ensures old(fs.history) <= fs.history
    ensures Bin in old(fs.nodes) ==> AllKeepBinary(fs.history, |old(fs.history)|, old(fs.nodes)[Bin])
    ensures Bin in old(fs.nodes) && saved ==> BinBak in fs.nodes && fs.nodes[BinBak] == old(fs.nodes)[Bin]
  {
    if Bin in fs.nodes {
      fs.Remove(BinBak, e.removeBinBak);
      saved := fs.Rename(Bin, BinBak, e.backupBin);
      if !saved {
        return;
      }
    }
    if Web in fs.nodes {
      fs.RemoveAll(WebBak, e.leftOfWebBak);
      var moved := fs.Rename(Web, WebBak, e.backupWeb);
    }
    saved := true;
  }

  /** Step 5: the new binary goes live, or the old one steps back. */
  method Install(fs: FileSystem, e: UpdateEnv) returns (err: Option<Failure>)
    modifies fs
    ensures err == None <==>
      e.installBin && BinNew in old(fs.nodes)
      && (Bin !in old(fs.nodes) || (old(fs.nodes)[BinNew].File? && old(fs.nodes)[Bin].File?))
    ensures err == None ==> BinNew !in fs.nodes && Bin in fs.nodes && fs.nodes[Bin] == old(fs.nodes)[BinNew]
    ensures err != None && e.restoreBin && BinBak in old(fs.nodes) && Bin !in old(fs.nodes) ==>
      Bin in fs.nodes && fs.nodes[Bin] == old(fs.nodes)[BinBak]
    ensures (fs.nodes, err) == Installed(old(fs.nodes), e)
    ensures old(fs.history) <= fs.history
    ensures BinBak in old(fs.nodes) ==> AllKeepBinary(fs.history, |old(fs.history)|, old(fs.nodes)[BinBak])
  {
    var installed := fs.Rename(BinNew, Bin, e.installBin);
    if !installed {
      var restored := fs.Rename(BinBak, Bin, e.restoreBin);
      return Some(InstallFailed);
    }
    if WebNew in fs.nodes {
      var moved := fs.Rename(WebNew, Web, e.installWeb);
    }
    return None;
  }

  method PerformUpdate(fs: FileSystem, e: UpdateEnv) returns (err: Option<Failure>)
    modifies fs
    ensures err == None <==> CanSucceed(old(fs.nodes), e)
    ensures err == None ==> IsLive(old(fs.nodes), fs.nodes, e)
    ensures err == Some(PullFailed) <==> !e.pull
    ensures err == Some(CreateFailed) <==> e.pull && !e.create
    ensures err == Some(CopyFailed) <==> e.pull && e.create && !e.copyBin
    ensures (fs.nodes, err) == Updated(old(fs.nodes), e)
    ensures old(fs.history) <= fs.history
    ensures Bin in old(fs.nodes) ==> AllKeepBinary(fs.history, |old(fs.history)|, old(fs.nodes)[Bin])
  {
    UpdateGoesLive(fs.nodes, e);
    hide BackedUpBin, BackedUpWeb, Installed, CanSucceed, IsLive;
    if !e.pull {
      return Some(PullFailed);
    }
    if !e.create {
      return Some(CreateFailed);
    }
    fs.CopyInto(BinNew, e.copiedBin);
    if !e.copyBin {
      return Some(CopyFailed);
    }
    fs.CopyInto(WebNew, e.copiedWeb);
    var saved := BackUp(fs, e);
    if !saved {
      return Some(BackupFailed);
    }
    err := Install(fs, e);
  }

  method RollbackUpdate(fs: FileSystem, e: RollbackEnv) returns (err: Option<Failure>)
    modifies fs
    ensures err == None <==>
      BinBak in old(fs.nodes) && e.restoreBin
      && (Bin !in old(fs.nodes) || (old(fs.nodes)[BinBak].File? && old(fs.nodes)[Bin].File?))
    ensures err == None ==> BinBak !in fs.nodes && Bin in fs.nodes && fs.nodes[Bin] == old(fs.nodes)[BinBak]
    ensures err != None ==> fs.nodes == old(fs.nodes)
    ensures (fs.nodes, err) == RolledBack(old(fs.nodes), e)
    ensures old(fs.history) <= fs.history
    ensures BinBak in old(fs.nodes) ==> AllKeepBinary(fs.history, |old(fs.history)|, old(fs.nodes)[BinBak])
  {
    if BinBak !in fs.nodes {
      return Some(NoBackup);
    }
    var restored := fs.Rename(BinBak, Bin, e.restoreBin);
    if !restored {
      return Some(RestoreFailed);
    }
    if WebBak in fs.nodes {
      fs.RemoveAll(Web, e.leftOfWeb);
      var moved := fs.Rename(WebBak, Web, e.restoreWeb);
    }
    return None;
  }

  // ---------- what update and rollback amount to ----------

  /** A failed update leaves the old binary live, unless both the install and the step back failed. */
  lemma FailedUpdateKeepsBinary(t: Tree, e: UpdateEnv)
    requires Bin in t && Updated(t, e).1.Some?
    ensures var t' := Updated(t, e).0;
      if Updated(t, e).1 == Some(InstallFailed) && !e.restoreBin then BinBak in t' && t'[BinBak] == t[Bin]
      else Bin in t' && t'[Bin] == t[Bin]
  {
  }

  /** After a successful update a successful rollback brings the binary back. */
  lemma RollbackRestoresBinary(t: Tree, e: UpdateEnv, r: RollbackEnv)
    requires Bin in t && Updated(t, e).1 == None
    requires RolledBack(Updated(t, e).0, r).1 == None
    ensures Bin in RolledBack(Updated(t, e).0, r).0 && RolledBack(Updated(t, e).0, r).0[Bin] == t[Bin]
  {
  }

  /** What a removal leaves of a directory is a directory. */
  predicate LeavesDirectory(left: Option<Node>) {
    left.Some? ==> left.value.Dir?
  }

  function At(t: Tree, p: Path): Option<Node> {
    if p in t then Some(t[p]) else None
  }

  /** Whether nothing of an older backup is in the way of the new one. */
  predicate Cleared(t: Tree, e: UpdateEnv) {
    WebBak !in t || e.leftOfWebBak == None
  }

  /** Where a successful update leaves the old web tree. A tree that did not step aside is never overwritten. */
  lemma WebAfterUpdate(t: Tree, e: UpdateEnv)
    requires Updated(t, e).1 == None
    requires Web in t && t[Web].Dir? && LeavesDirectory(e.leftOfWebBak)
    ensures var t' := Updated(t, e).0;
      && (!(Cleared(t, e) && e.backupWeb) ==> At(t', Web) == Some(t[Web]))
      && (Cleared(t, e) && e.backupWeb ==> At(t', Web) == if e.installWeb then e.copiedWeb else None)
      && At(t', WebBak) == (if !Cleared(t, e) then e.leftOfWebBak else if e.backupWeb then Some(t[Web]) else None)
  {
    var copied := Put(Put(t, BinNew, e.copiedBin), WebNew, e.copiedWeb);
    var saved := BackedUpBin(copied, e).0;
    BinBackupKeepsWeb(copied, e);
    hide BackedUpBin;
    var ready := BackedUpWeb(saved, e);
    assert BinNew in ready && At(ready, WebNew) == e.copiedWeb;
    assert Updated(t, e).0 == Installed(ready, e).0;
    hide Updated, BackedUpWeb;
  }

  lemma BinBackupKeepsWeb(t: Tree, e: UpdateEnv)
    ensures var t' := BackedUpBin(t, e).0;
      && At(t', Web) == At(t, Web) && At(t', WebNew) == At(t, WebNew)
      && At(t', WebBak) == At(t, WebBak) && At(t', BinNew) == At(t, BinNew)
  {
  }

  /** What a successful rollback makes of the two web paths. */
  lemma WebAfterRollback(t: Tree, r: RollbackEnv)
    requires RolledBack(t, r).1 == None
    requires (WebBak in t ==> t[WebBak].Dir?) && LeavesDirectory(r.leftOfWeb)
    ensures At(RolledBack(t, r).0, Web) ==
      if WebBak !in t then At(t, Web)
      else if Web in t && r.leftOfWeb.Some? then r.leftOfWeb
      else if r.restoreWeb then Some(t[WebBak]) else None
  {
  }

  /** After a successful update and a successful rollback the web tree is back exactly in these cases. If nothing of an
      older backup was in the way, the backup must not have been made, or have been moved back over nothing (or over a
      removal that left that very tree). If something of it was, the rollback takes it for the backup. */
  lemma RollbackRestoresWebExactlyWhen(t: Tree, e: UpdateEnv, r: RollbackEnv)
    requires Updated(t, e).1 == None
    requires RolledBack(Updated(t, e).0, r).1 == None
    requires Web in t && t[Web].Dir?
    requires LeavesDirectory(e.leftOfWebBak) && LeavesDirectory(r.leftOfWeb)
    ensures At(RolledBack(Updated(t, e).0, r).0, Web) == Some(t[Web]) <==>
      if Cleared(t, e) then
        !e.backupWeb ||
        (if e.copiedWeb.Some? && e.installWeb && r.leftOfWeb.Some? then r.leftOfWeb == Some(t[Web]) else r.restoreWeb)
      else if r.leftOfWeb.Some? then r.leftOfWeb == Some(t[Web])
      else r.restoreWeb && e.leftOfWebBak == Some(t[Web])
  {
    WebAfterUpdate(t, e);
    hide Updated, RolledBack;
    WebAfterRollback(Updated(t, e).0, r);
  }

  /** An older backup that is only half removed: update and rollback both report success, and the live web tree is
      gone, replaced by what was left of the older one. */
  lemma StaleBackupReplacesWeb(t: Tree, live: Node, stale: Node, rest: Node, e: UpdateEnv, r: RollbackEnv)
    requires live.Dir? && stale.Dir? && rest.Dir? && rest != live
    requires t == map[Bin := File("old"), Web := live, WebBak := stale]
    requires e == UpdateEnv(true, true, Some(File("new")), true, None, true, true, Some(rest), true, true, true, true)
    requires r == RollbackEnv(true, None, true)
    ensures Updated(t, e).1 == None && Updated(t, e).0[Web] == live
    ensures var (t', err) := RolledBack(Updated(t, e).0, r);
      err == None && Web in t' && t'[Web] == rest && WebBak !in t'
  {
  }
}
