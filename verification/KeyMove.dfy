/**
 Moving the device's private key between the key file and the keychain, with a
 failure or a stop of the process possible at every step. A storage cell holds
 what a load from it gives; writing the configuration is atomic.
 */
module KeyMove {
  import opened Bytes

  /** useKeychain is the configuration's record of which storage is in use. */
  datatype Store = Store(keyFile: Option<Text>, keychain: Option<Text>, useKeychain: bool) {
    function Cell(inKeychain: bool): Option<Text> {
      if inKeychain then keychain else keyFile
    }
    function With(inKeychain: bool, key: Option<Text>): Store {
      if inKeychain then this.(keychain := key) else this.(keyFile := key)
    }
    /** The storage the agent will load its key from. */
    function Named(): Option<Text> { Cell(useKeychain) }
  }

  /**
   What the outside does during one move. A save leaves anything behind,
   whatever it reports, and so does a delete.
   */
  datatype World = World(
    loads: bool,
    saveOk: bool, saved: Option<Text>,
    reloads: bool,
    configOk: bool,
    deleted: Option<Text>,
    stopsBefore: Effect)

  datatype Effect = Save | SetConfig | Delete | Nothing

  datatype Outcome = Returned(ok: bool) | Stopped

  /** The fingerprint of a PEM key, None when it does not parse. */
  type Printer = Text -> Option<Text>

  function PrintOf(fp: Printer, cell: Option<Text>): Option<Text> {
    if cell == None then None else fp(cell.value)
  }

  function SourceRead(s: Store, source: bool, w: World, fp: Printer): Option<Text> {
    if w.loads then PrintOf(fp, s.Cell(source)) else None
  }

  /** The saved key was read back and has the fingerprint of the source key. */
  predicate Verified(s: Store, source: bool, w: World, fp: Printer) {
    w.saveOk && w.reloads && PrintOf(fp, w.saved) != None && PrintOf(fp, w.saved) == PrintOf(fp, s.Cell(source))
  }

  /** What one move leaves in the storages and the configuration. */
  function Moved(s: Store, source: bool, target: bool, w: World, fp: Printer): Store {
    if source == target || SourceRead(s, source, w, fp) == None || w.stopsBefore == Save then s else
      var copied := s.With(target, w.saved);
      if !Verified(s, source, w, fp) || w.stopsBefore == SetConfig || !w.configOk then copied else
        var switched := copied.(useKeychain := target);
        if w.stopsBefore == Delete then switched else switched.With(source, w.deleted)
  }

  function Result(s: Store, source: bool, target: bool, w: World, fp: Printer): Outcome {
    if source == target then Returned(true) else
      if SourceRead(s, source, w, fp) == None then Returned(false) else
        if w.stopsBefore == Save then Stopped else
          if !Verified(s, source, w, fp) then Returned(false) else
            if w.stopsBefore == SetConfig then Stopped else
              if !w.configOk then Returned(false) else
                if w.stopsBefore == Delete then Stopped else Returned(true)
  }

  class KeyStorage {
    var keyFile: Option<Text>
    var keychain: Option<Text>
    var useKeychain: bool
    const fp: Printer

    constructor (s: Store, fp: Printer)
      ensures Now() == s && this.fp == fp
    {
      this.keyFile, this.keychain, this.useKeychain, this.fp := s.keyFile, s.keychain, s.useKeychain, fp;
    }

    function Now(): Store
      reads this
    {
      Store(keyFile, keychain, useKeychain)
    }

    method Load(inKeychain: bool, ok: bool) returns (pem: Option<Text>)
      ensures pem == if ok then Now().Cell(inKeychain) else None
    {
      pem := if !ok then None else if inKeychain then keychain else keyFile;
    }

    method Put(inKeychain: bool, content: Option<Text>)
      modifies this
      ensures Now() == old(Now()).With(inKeychain, content)
    {
      if inKeychain {
        keychain := content;
      } else {
        keyFile := content;
      }
    }

    /** tmuxremote_move_private_key_storage */
    method Move(source: bool, target: bool, w: World) returns (r: Outcome)
      modifies this
      ensures Now() == Moved(old(Now()), source, target, w, fp)
      ensures r == Result(old(Now()), source, target, w, fp)
    {
      if source == target {
        return Returned(true);
      }
      var sourcePem := Load(source, w.loads);
      if sourcePem == None {
        return Returned(false);
      }
      var sourcePrint := fp(sourcePem.value);
      if sourcePrint == None {
        return Returned(false);
      }
      if w.stopsBefore == Save {
        return Stopped;
      }
      Put(target, w.saved);
      if !w.saveOk {
        return Returned(false);
      }
      var targetPem := Load(target, w.reloads);
      if targetPem == None {
        return Returned(false);
      }
      var targetPrint := fp(targetPem.value);
      if targetPrint == None || targetPrint != sourcePrint {
        return Returned(false);
      }
      if w.stopsBefore == SetConfig {
        return Stopped;
      }
      if !w.configOk {
        return Returned(false);
      }
      useKeychain := target;
      if w.stopsBefore == Delete {
        return Stopped;
      }
      Put(source, w.deleted);
      return Returned(true);
    }
  }

  // ----- what the move promises

  /**
   True: the configuration names the target, which holds a key with the source's
   fingerprint. A move from a storage to itself does nothing, so there it must be named already.
   */
  lemma TrueMeansMoved(s: Store, source: bool, target: bool, w: World, fp: Printer)
    requires Result(s, source, target, w, fp) == Returned(true)
    requires source != target || source == s.useKeychain
    ensures Moved(s, source, target, w, fp).useKeychain == target
    ensures PrintOf(fp, Moved(s, source, target, w, fp).Cell(target)) == PrintOf(fp, s.Cell(source))
  {
  }

  /** False: the configuration and the source storage are as they were. */
  lemma FalseMeansUntouched(s: Store, source: bool, target: bool, w: World, fp: Printer)
    requires Result(s, source, target, w, fp) == Returned(false)
    ensures Moved(s, source, target, w, fp).useKeychain == s.useKeychain
    ensures Moved(s, source, target, w, fp).Cell(source) == s.Cell(source)
  {
  }

  /**
   Exactly when a move between two storages succeeds. Until then, and in a stop before
   the delete, the source keeps its key; a success leaves there what the delete left.
   */
  lemma SourceGoesOnlyInTheEnd(s: Store, source: bool, target: bool, w: World, fp: Printer)
    requires source != target
    ensures Result(s, source, target, w, fp) == Returned(true) <==>
      && w.loads && w.saveOk && w.reloads && w.configOk && w.stopsBefore == Nothing
      && PrintOf(fp, s.Cell(source)) != None && PrintOf(fp, w.saved) == PrintOf(fp, s.Cell(source))
    ensures Moved(s, source, target, w, fp).Cell(source) ==
      if Result(s, source, target, w, fp) == Returned(true) then w.deleted else s.Cell(source)
    ensures Moved(s, source, target, w, fp).Cell(target) ==
      if w.loads && PrintOf(fp, s.Cell(source)) != None && w.stopsBefore != Save then w.saved else s.Cell(target)
  {
  }

  /** When the delete works, a success leaves the key in the target alone. */
  lemma SuccessLeavesOneCopy(s: Store, source: bool, target: bool, w: World, fp: Printer)
    requires source != target && w.deleted == None
    requires Result(s, source, target, w, fp) == Returned(true)
    ensures Moved(s, source, target, w, fp) ==
      if target then Store(None, w.saved, true) else Store(w.saved, None, false)
    ensures PrintOf(fp, w.saved) == PrintOf(fp, s.Cell(source)) != None
  {
  }

  /** A stop after the configuration names the target leaves the key in both storages. */
  lemma StopBeforeDeleteKeepsBoth(s: Store, source: bool, target: bool, w: World, fp: Printer)
    requires source != target && Result(s, source, target, w, fp) == Stopped
    ensures Moved(s, source, target, w, fp).Cell(source) == s.Cell(source)
    ensures w.stopsBefore == Save ==> Moved(s, source, target, w, fp) == s
    ensures w.stopsBefore == SetConfig ==> Moved(s, source, target, w, fp).useKeychain == s.useKeychain
    ensures w.stopsBefore == Delete ==> Moved(s, source, target, w, fp).useKeychain == target
    ensures w.stopsBefore in {SetConfig, Delete} ==>
      PrintOf(fp, Moved(s, source, target, w, fp).Cell(target)) == PrintOf(fp, s.Cell(source)) != None
  {
  }

  /** A move away from the storage in use never loses the device's identity, wherever it ends. */
  lemma MoveKeepsIdentity(s: Store, target: bool, w: World, fp: Printer)
    ensures PrintOf(fp, Moved(s, s.useKeychain, target, w, fp).Named()) == PrintOf(fp, s.Named())
  {
  }

  /**
   The source is a parameter, and a configuration that cannot be read counts as
   naming the key file. A move is safe in every world exactly when the source is
   the storage in use, or nothing is moved, or the source holds no usable key.
   */
  predicate SafeToMove(s: Store, source: bool, target: bool, fp: Printer) {
    source == target || source == s.useKeychain || PrintOf(fp, s.Cell(source)) == None
  }

  /** One --move-key command: the source is what it took the configuration to name. */
  datatype Command = Command(source: bool, target: bool, world: World)

  function RunCommands(s: Store, commands: seq<Command>, fp: Printer): Store
    decreases |commands|
  {
    if commands == [] then s else
      RunCommands(Moved(s, commands[0].source, commands[0].target, commands[0].world, fp), commands[1..], fp)
  }

  /** Each command is safe where it runs, as those are that read the configuration correctly. */
  predicate AllSafe(s: Store, commands: seq<Command>, fp: Printer)
    decreases |commands|
  {
    commands == [] ||
    (var c := commands[0];
     SafeToMove(s, c.source, c.target, fp) && AllSafe(Moved(s, c.source, c.target, c.world, fp), commands[1..], fp))
  }

  /** Over any sequence of safe moves, failed and stopped ones included. */
  lemma {:induction false} IdentitySurvives(s: Store, commands: seq<Command>, fp: Printer)
    requires AllSafe(s, commands, fp)
    ensures PrintOf(fp, RunCommands(s, commands, fp).Named()) == PrintOf(fp, s.Named())
    decreases |commands|
  {
    if commands != [] {
      var c := commands[0];
      MoveKeepsIdentity(s, c.target, c.world, fp);
      IdentitySurvives(Moved(s, c.source, c.target, c.world, fp), commands[1..], fp);
    }
  }

  /** A move can be retried after any stop: the second one finds a usable source. */
  lemma RetrySucceeds(s: Store, target: bool, w: World, again: World, fp: Printer)
    requires PrintOf(fp, s.Named()) != None
    requires again.loads && again.saveOk && again.reloads && again.configOk && again.stopsBefore == Nothing
    requires PrintOf(fp, again.saved) == PrintOf(fp, s.Named())
    ensures
      var t := Moved(s, s.useKeychain, target, w, fp);
      Result(t, t.useKeychain, target, again, fp) == Returned(true)
  {
    MoveKeepsIdentity(s, target, w, fp);
  }

  /** Writing over the storage in use and failing: what a misread configuration allows. */
  const WRECK := World(true, false, None, false, false, None, Nothing)

  lemma SafeExactlyWhen(s: Store, source: bool, target: bool, fp: Printer)
    requires PrintOf(fp, s.Named()) != None
    ensures (forall w :: PrintOf(fp, Moved(s, source, target, w, fp).Named()) == PrintOf(fp, s.Named()))
        <==> SafeToMove(s, source, target, fp)
  {
    if !SafeToMove(s, source, target, fp) {
      assert Moved(s, source, target, WRECK, fp) == s.With(target, None);
    }
  }

  /** Even a move that reports success replaces the device's key by a stale one. */
  lemma MisreadConfigurationLosesTheKey(current: Text, stale: Text, fp: Printer)
    requires fp(current) != None && fp(stale) != None && fp(stale) != fp(current)
    ensures
      var s := Store(Some(stale), Some(current), true);
      var w := World(true, true, Some(stale), true, true, None, Nothing);
      && Result(s, false, true, w, fp) == Returned(true)
      && PrintOf(fp, Moved(s, false, true, w, fp).Named()) == fp(stale)
  {
  }
}
