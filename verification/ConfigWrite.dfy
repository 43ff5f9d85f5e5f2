/**
 The atomic write of the configuration file, with backup rotation.

 Every file-system call is one atomic step, and which of them fail is a parameter; a
 write to a temporary file that fails may stop half-way.  Each step is recorded in a
 trace, so what is proved of every recorded state holds wherever the process might be
 killed.  One process writes; names handed out by mkstemp are unused.
 */
module ConfigWrite {
  import opened Prelude
  import opened Sums

  type Content = string

  /** ov.conf, its backups (.bak, .bak.1, .bak.2, ...), mkstemp names, and any other file. */
  datatype Name = Config | Backup(index: nat) | Temp(id: nat) | Other(path: string)

  type Files = map<Name, Content>

  /**
   A state of the directory, with its history: the contents the config has held, in
   order, and for each backup the position of its content in that order.
   */
  datatype Snapshot = Snapshot(files: Files, held: seq<Content>, origin: seq<int>)

  /** How a call ends: it returns a Boolean, or an exception leaves it. */
  datatype Outcome = Returned(ok: bool) | Raised

  ghost predicate IsLeastFree(files: Files, slot: nat) {
    Backup(slot) !in files && forall j: nat :: j < slot ==> Backup(j) in files
  }

  /** The recorded history ends with what the config holds now. */
  ghost predicate Current(s: Snapshot) {
    if s.held == [] then Config !in s.files
    else Config in s.files && s.files[Config] == s.held[|s.held| - 1]
  }

  ghost predicate SameFile(a: Files, b: Files, n: Name) {
    (n in a <==> n in b) && (n in a ==> a[n] == b[n])
  }

  /**
   What holds at every step of a write of `content` that began in `start`, where
   `slot` was the least unused backup index.
   */
  ghost predicate Safe(start: Snapshot, slot: nat, content: Option<Content>, s: Snapshot) {
    // the config is exactly the old file or exactly the new one
    && (if s.held == start.held then SameFile(start.files, s.files, Config)
        else
          && content.Some? && s.held == start.held + [content.value]
          && Config in s.files && s.files[Config] == content.value)
    // before the old content goes, a new backup holds it
    && (s.held != start.held && Config in start.files ==> Backup(slot) in s.files)
    && (if Backup(slot) in s.files
        then Config in start.files && s.files[Backup(slot)] == start.files[Config]
             && s.origin == start.origin + [|start.held| - 1]
        else s.origin == start.origin)
    // no other existing file changes, and nothing but temporaries and that backup appears
    && (forall n :: n in start.files && n != Config ==> n in s.files && s.files[n] == start.files[n])
    && (forall n :: n in s.files && n !in start.files ==> n.Temp? || n == Config || n == Backup(slot))
  }

  /** The temporary files are those at the start and at most two more. */
  ghost predicate TempsAre(start: Files, files: Files, mine: Option<nat>, copy: Option<nat>) {
    forall id: nat :: Temp(id) in files <==> Temp(id) in start || mine == Some(id) || copy == Some(id)
  }

  /**
   Nothing the config ever held is lost: backups are numbered without gaps, each holds
   a content the config held, in the order it held them, and every content before the
   current one is among them.
   */
  ghost predicate Kept(s: Snapshot) {
    && Current(s)
    && (forall i: nat :: Backup(i) in s.files <==> i < |s.origin|)
    && (forall i: nat :: i < |s.origin| ==> 0 <= s.origin[i] < |s.held| && s.files[Backup(i)] == s.held[s.origin[i]])
    && (forall i, j :: 0 <= i < j < |s.origin| ==> s.origin[i] <= s.origin[j])
    && (forall k: nat :: k + 1 < |s.held| ==> k in s.origin)
  }

  /** The history invariant survives every step of every write. */
  lemma SafeKeeps(start: Snapshot, slot: nat, content: Option<Content>, s: Snapshot)
    requires Kept(start) && IsLeastFree(start.files, slot) && Safe(start, slot, content, s)
    ensures Kept(s)
  {
    assert Backup(slot) in start.files <==> slot < |start.origin|;
    assert Backup(|start.origin|) in start.files <==> false;
    assert Current(s);
    forall k: nat | k + 1 < |s.held| ensures k in s.origin {
      if k + 1 < |start.held| {
        assert k in start.origin;
      } else {
        assert s.origin[|start.origin|] == k;
      }
    }
    forall i: nat ensures Backup(i) in s.files <==> i < |s.origin| {
      assert Backup(i) in start.files <==> i < |start.origin|;
    }
  }

  /** Every content the config ever held is its current content or stands in some backup. */
  lemma NothingLost(s: Snapshot, c: Content)
    requires Kept(s) && c in s.held
    ensures (Config in s.files && s.files[Config] == c)
      || exists i: nat :: Backup(i) in s.files && s.files[Backup(i)] == c
  {
    var k :| 0 <= k < |s.held| && s.held[k] == c;
    if k + 1 < |s.held| {
      assert k in s.origin;
      var i :| 0 <= i < |s.origin| && s.origin[i] == k;
      assert Backup(i) in s.files && s.files[Backup(i)] == c;
    }
  }

  lemma {:induction false} BackupsCounted(files: Files, i: nat)
    requires forall j: nat :: j < i ==> Backup(j) in files
    ensures i <= |files|
  {
    var used := set j: nat | j < i :: Backup(j);
    NamesCounted(i);
    assert used <= files.Keys;
    CountLess(used, files.Keys);
  }

  lemma {:induction false} NamesCounted(i: nat)
    ensures |set j: nat | j < i :: Backup(j)| == i
  {
    var names := set j: nat | j < i :: Backup(j);
    if i > 0 {
      NamesCounted(i - 1);
      assert names == (set j: nat | j < i - 1 :: Backup(j)) + {Backup(i - 1)};
    }
  }

  lemma LeastFreeExists(files: Files) returns (slot: nat)
    ensures IsLeastFree(files, slot)
  {
    slot := 0;
    while Backup(slot) in files
      invariant forall j: nat :: j < slot ==> Backup(j) in files
      decreases |files| - slot
    {
      BackupsCounted(files, slot + 1);
      slot := slot + 1;
    }
  }

  // ------------------------------------------------------- pure step lemmas

  /** Steps on a temporary file of this call keep a write safe. */
  lemma TempStepSafe(start: Snapshot, slot: nat, content: Option<Content>, s: Snapshot, t: Snapshot, id: nat)
    requires Safe(start, slot, content, s) && Temp(id) !in start.files
    requires t.held == s.held && t.origin == s.origin
    requires forall n :: n != Temp(id) ==> SameFile(s.files, t.files, n)
    ensures Safe(start, slot, content, t)
  {
    assert SameFile(s.files, t.files, Config) && SameFile(s.files, t.files, Backup(slot));
    forall n | n in start.files && n != Config ensures n in t.files && t.files[n] == start.files[n] {
      assert SameFile(s.files, t.files, n);
    }
    forall n | n in t.files && n !in start.files ensures n.Temp? || n == Config || n == Backup(slot) {
      assert n != Temp(id) ==> SameFile(s.files, t.files, n);
    }
  }

  /** Publishing the finished copy of the config as the new backup. */
  lemma BackupStepSafe(start: Snapshot, slot: nat, content: Option<Content>, s: Snapshot, t: Snapshot, id: nat)
    requires Safe(start, slot, content, s) && Temp(id) in s.files && Temp(id) !in start.files
    requires IsLeastFree(start.files, slot) && Config in start.files && s.held == start.held
    requires s.files[Temp(id)] == start.files[Config] && Backup(slot) !in s.files
    requires t == Snapshot((s.files - {Temp(id)})[Backup(slot) := s.files[Temp(id)]], s.held, s.origin + [|s.held| - 1])
    ensures Safe(start, slot, content, t)
  {
  }

  /** Publishing the new config, once the old one is backed up or there was none. */
  lemma ConfigStepSafe(start: Snapshot, slot: nat, content: Option<Content>, s: Snapshot, t: Snapshot, id: nat)
    requires Safe(start, slot, content, s) && Temp(id) in s.files && Temp(id) !in start.files
    requires s.held == start.held && content == Some(s.files[Temp(id)])
    requires Config in start.files ==> Backup(slot) in s.files
    requires t == Snapshot((s.files - {Temp(id)})[Config := content.value], s.held + [content.value], s.origin)
    ensures Safe(start, slot, content, t)
  {
  }

  // ------------------------------------------------------------ the answers

  /** The file-system calls of one write, each made at most once. */
  datatype Step =
    | MakeDir | MakeTemp | OpenTemp | WriteTemp | ChmodTemp | FindConfig
    | FindBackup(index: nat) | ChmodConfig
    | MakeBackupTemp | CopyConfig | ChmodBackup | ReplaceBackup | UnlinkBackupTemp
    | ReplaceConfig | ChmodNewConfig | UnlinkTemp

  /** Whether each call succeeds. */
  type Answers = Step -> bool

  /** The temporary file is there. */
  predicate Begun(a: Answers) { a(MakeDir) && a(MakeTemp) }

  /** It holds the new content, and the config has been looked up. */
  predicate Filled(a: Answers, content: Option<Content>) {
    Begun(a) && a(OpenTemp) && content.Some? && a(WriteTemp) && a(ChmodTemp) && a(FindConfig)
  }

  ghost predicate SlotFound(a: Answers, slot: nat) { forall k: nat :: k <= slot ==> a(FindBackup(k)) }

  /** The copy of the old config is complete and in place. */
  predicate Copied(a: Answers) { a(MakeBackupTemp) && a(CopyConfig) && a(ChmodBackup) && a(ReplaceBackup) }

  ghost predicate BackedUp(a: Answers, content: Option<Content>, existed: bool, slot: nat) {
    Filled(a, content) && existed && SlotFound(a, slot) && a(ChmodConfig) && Copied(a)
  }

  /** The new config is in place. */
  ghost predicate Published(a: Answers, content: Option<Content>, existed: bool, slot: nat) {
    Filled(a, content) && (existed ==> BackedUp(a, content, existed, slot)) && a(ReplaceConfig)
  }

  /** The temporary file of the backup stays behind. */
  ghost predicate BackupTempLeft(a: Answers, content: Option<Content>, existed: bool, slot: nat) {
    && Filled(a, content) && existed && SlotFound(a, slot) && a(ChmodConfig)
    && a(MakeBackupTemp) && !Copied(a) && !a(UnlinkBackupTemp)
  }

  /** The temporary file of the config stays behind. */
  ghost predicate TempLeft(a: Answers, content: Option<Content>, existed: bool, slot: nat) {
    Begun(a) && !Published(a, content, existed, slot) && !a(UnlinkTemp)
  }

  /** How the write ends; a value that cannot be serialized, or a failing last unlink, raises. */
  ghost function Ending(a: Answers, content: Option<Content>, existed: bool, slot: nat): Outcome {
    if Published(a, content, existed, slot) then Returned(a(ChmodNewConfig))
    else if Begun(a) && (!a(UnlinkTemp) || (a(OpenTemp) && content.None?)) then Raised
    else Returned(false)
  }

  /** How a write ends, call by call. */
  lemma CallByCall(a: Answers, content: Option<Content>, existed: bool, slot: nat)
    ensures Ending(a, content, existed, slot) == Returned(true) <==>
      && content.Some? && a(MakeDir) && a(MakeTemp) && a(OpenTemp) && a(WriteTemp) && a(ChmodTemp) && a(FindConfig)
      && (existed ==>
            && (forall k: nat :: k <= slot ==> a(FindBackup(k))) && a(ChmodConfig)
            && a(MakeBackupTemp) && a(CopyConfig) && a(ChmodBackup) && a(ReplaceBackup))
      && a(ReplaceConfig) && a(ChmodNewConfig)
    ensures Ending(a, content, existed, slot) == Returned(true) ==> Published(a, content, existed, slot)
    ensures Published(a, content, existed, slot) ==> content.Some? && a(MakeDir) && a(MakeTemp)
    ensures Ending(a, content, existed, slot).Raised? <==>
      && a(MakeDir) && a(MakeTemp) && !Published(a, content, existed, slot)
      && (!a(UnlinkTemp) || (a(OpenTemp) && content.None?))
    ensures BackupTempLeft(a, content, existed, slot) ==>
      && a(MakeBackupTemp) && !a(UnlinkBackupTemp)
      && !BackedUp(a, content, existed, slot) && !Published(a, content, existed, slot)
  {
  }

  /** The content a write publishes, if it publishes any. */
  function ContentOf(content: Option<Content>): Content { if content.Some? then content.value else "" }

  /** The directory afterwards, temporary files that stay behind aside. */
  ghost function After(start: Files, slot: nat, content: Content, backedUp: bool, published: bool): Files
    requires backedUp ==> Config in start
  {
    var f := if backedUp then start[Backup(slot) := start[Config]] else start;
    if published then f[Config := content] else f
  }

  lemma FreshTempExists(files: Files)
    ensures exists id: nat :: Temp(id) !in files
  {
    var used := set n | n in files && n.Temp? :: n.id;
    if forall id: nat :: Temp(id) in files {
      forall id: nat ensures id in used { assert Temp(id) in files && Temp(id).id == id; }
      CountLess(Below(|used| + 1), used);
    }
  }

  // ------------------------------------------------------------- the writer

  /** The write in progress: where it began, its backup index, its content, and where its trace begins. */
  datatype Write = Write(start: Snapshot, slot: nat, content: Option<Content>, from: nat)

  class ConfigStore {
    var files: Files
    // History variables, which no branch reads:
    var held: seq<Content>
    var origin: seq<int>
    var trace: seq<Snapshot>  // every state of the directory since the store was opened

    function Now(): Snapshot
      reads this
    {
      Snapshot(files, held, origin)
    }

    /** The directory as found; the config's history starts with what it holds, if it exists. */
    constructor (files: Files)
      ensures this.files == files && this.origin == [] && Current(Now())
      ensures trace == [Now()]
      ensures (forall i: nat :: Backup(i) !in files) ==> Kept(Now())
    {
      this.files := files;
      held := if Config in files then [files[Config]] else [];
      origin := [];
      trace := [Snapshot(files, if Config in files then [files[Config]] else [], [])];
    }

    /** Every state recorded since the write began, and the present one, is safe. */
    ghost predicate Sound(w: Write)
      reads this
    {
      && IsLeastFree(w.start.files, w.slot)
      && Safe(w.start, w.slot, w.content, Now())
      && w.from <= |trace|
      && forall k :: w.from <= k < |trace| ==> Safe(w.start, w.slot, w.content, trace[k])
    }

    /** mkstemp: an unused name, created empty. */
    method CreateTemp(ghost w: Write) returns (id: nat)
      requires Sound(w)
      modifies this`files, this`trace
      ensures Sound(w) && old(trace) <= trace
      ensures Temp(id) !in w.start.files && Temp(id) !in old(files) && files == old(files)[Temp(id) := ""]
    {
      FreshTempExists(files);
      id :| Temp(id) !in files;
      Put(w, id, "");
    }

    /** Sets the content of a temporary file of this write. */
    method Put(ghost w: Write, id: nat, content: Content)
      requires Sound(w) && Temp(id) !in w.start.files
      modifies this`files, this`trace
      ensures Sound(w) && old(trace) <= trace && files == old(files)[Temp(id) := content]
    {
      hide Safe;
      ghost var before := Now();
      files := files[Temp(id) := content];
      trace := trace + [Now()];
      TempStepSafe(w.start, w.slot, w.content, before, Now(), id);
    }

    /** Writes, flushes and syncs a temporary file; a failure leaves any content in it. */
    method Fill(ghost w: Write, id: nat, content: Content, ok: bool) returns (ghost written: Content)
      requires Sound(w) && Temp(id) !in w.start.files
      modifies this`files, this`trace
      ensures Sound(w) && old(trace) <= trace
      ensures files == old(files)[Temp(id) := written] && (ok ==> written == content)
    {
      hide Safe;
      var partial: Content := *;
      Put(w, id, partial);
      if ok { Put(w, id, content); }
      written := if ok then content else partial;
    }

    /** unlink with missing_ok; a failure leaves the file. */
    method Unlink(ghost w: Write, id: nat, ok: bool)
      requires Sound(w) && Temp(id) !in w.start.files
      modifies this`files, this`trace
      ensures Sound(w) && old(trace) <= trace
      ensures files == if ok then old(files) - {Temp(id)} else old(files)
    {
      hide Safe;
      if ok {
        ghost var before := Now();
        files := files - {Temp(id)};
        trace := trace + [Now()];
        TempStepSafe(w.start, w.slot, w.content, before, Now(), id);
      }
    }

    /** os.replace of the finished copy onto the backup name. */
    method PublishBackup(ghost w: Write, id: nat, index: nat)
      requires Sound(w) && index == w.slot && Temp(id) in files && Temp(id) !in w.start.files
      requires Config in w.start.files && held == w.start.held && Backup(w.slot) !in files
      requires files[Temp(id)] == w.start.files[Config]
      modifies this`files, this`trace, this`origin
      ensures Sound(w) && old(trace) <= trace
      ensures files == (old(files) - {Temp(id)})[Backup(index) := old(files)[Temp(id)]]
    {
      hide Safe;
      ghost var before := Now();
      files := (files - {Temp(id)})[Backup(index) := files[Temp(id)]];
      origin := origin + [|held| - 1];
      trace := trace + [Now()];
      BackupStepSafe(w.start, w.slot, w.content, before, Now(), id);
    }

    /** os.replace of the new file onto the config name. */
    method PublishConfig(ghost w: Write, id: nat)
      requires Sound(w) && Temp(id) in files && Temp(id) !in w.start.files
      requires held == w.start.held && w.content == Some(files[Temp(id)])
      requires Config in w.start.files ==> Backup(w.slot) in files
      modifies this`files, this`trace, this`held
      ensures Sound(w) && old(trace) <= trace
      ensures files == (old(files) - {Temp(id)})[Config := w.content.value]
      ensures held == old(held) + [w.content.value]
    {
      hide Safe;
      ghost var before := Now();
      held := held + [files[Temp(id)]];
      files := (files - {Temp(id)})[Config := files[Temp(id)]];
      trace := trace + [Now()];
      ConfigStepSafe(w.start, w.slot, w.content, before, Now(), id);
    }

    /** _next_backup_path: ends at the least unused index exactly when no lookup on the way fails. */
    method NextBackup(ghost w: Write, a: Answers) returns (index: Option<nat>)
      requires Sound(w) && forall k: nat :: SameFile(w.start.files, files, Backup(k))
      ensures index == if SlotFound(a, w.slot) then Some(w.slot) else None
      ensures index.Some? ==> IsLeastFree(files, index.value)
    {
      hide Safe;
      var i := 0;
      while true
        invariant forall j: nat :: j < i ==> Backup(j) in files && a(FindBackup(j))
        decreases |files| - i
      {
        BackupsCounted(files, i);
        assert SameFile(w.start.files, files, Backup(w.slot));
        if !a(FindBackup(i)) { return None; }
        if Backup(i) !in files {
          SameSlot(w.start.files, files, w.slot, i);
          return Some(i);
        }
        BackupsCounted(files, i + 1);
        i := i + 1;
      }
    }

    /**
     _write_secure_backup: copies the config into a temporary file and publishes it as the
     backup; `copy` is that file if it stays behind.
     */
    method SecureBackup(ghost w: Write, index: nat, ghost mine: nat, a: Answers)
      returns (ok: bool, ghost copy: Option<nat>)
      requires Sound(w) && index == w.slot && held == w.start.held && Backup(w.slot) !in files
      requires Config in w.start.files && SameFile(w.start.files, files, Config)
      requires TempsAre(w.start.files, files, Some(mine), None)
      modifies this`files, this`trace, this`origin
      ensures Sound(w) && old(trace) <= trace
      ensures TempsAre(w.start.files, files, Some(mine), copy) && SameFile(old(files), files, Temp(mine))
      ensures copy.Some? ==> copy.value != mine && Temp(copy.value) !in w.start.files
      ensures ok == Copied(a) && (Backup(w.slot) in files <==> ok)
      ensures copy.Some? <==> a(MakeBackupTemp) && !Copied(a) && !a(UnlinkBackupTemp)
    {
      hide Safe, Sound;
      copy := None;
      if !a(MakeBackupTemp) { return false, None; }
      var id := CreateTemp(w);
      ghost var written := Fill(w, id, files[Config], a(CopyConfig));
      if a(CopyConfig) && a(ChmodBackup) && a(ReplaceBackup) {
        PublishBackup(w, id, index);
        return true, None;
      }
      Unlink(w, id, a(UnlinkBackupTemp));
      ok, copy := false, if a(UnlinkBackupTemp) then None else Some(id);
    }

    /** Backs an existing config up under the next unused name. */
    method BackUp(ghost w: Write, ghost mine: nat, a: Answers) returns (ok: bool, ghost copy: Option<nat>)
      requires Sound(w) && held == w.start.held && forall n: Name :: !n.Temp? ==> SameFile(w.start.files, files, n)
      requires Config in w.start.files && TempsAre(w.start.files, files, Some(mine), None)
      modifies this`files, this`trace, this`origin
      ensures Sound(w) && old(trace) <= trace
      ensures TempsAre(w.start.files, files, Some(mine), copy) && SameFile(old(files), files, Temp(mine))
      ensures copy.Some? ==> copy.value != mine && Temp(copy.value) !in w.start.files
      ensures ok <==> SlotFound(a, w.slot) && a(ChmodConfig) && Copied(a)
      ensures Backup(w.slot) in files <==> ok
      ensures copy.Some? <==>
        SlotFound(a, w.slot) && a(ChmodConfig) && a(MakeBackupTemp) && !Copied(a) && !a(UnlinkBackupTemp)
    {
      assert Backup(w.slot) !in files by { SlotUnused(w); }
      hide Safe, Sound, Copied, SlotFound, TempsAre, IsLeastFree;
      assert SameFile(w.start.files, files, Config);
      copy := None;
      var index := NextBackup(w, a);
      if index.None? || !a(ChmodConfig) { return false, None; }
      ok, copy := SecureBackup(w, index.value, mine, a);
    }

    lemma SlotUnused(w: Write)
      requires Sound(w) && SameFile(w.start.files, files, Backup(w.slot))
      ensures Backup(w.slot) !in files
    {
    }

    /** Up to the lookup of the config: makes and fills the temporary file. */
    method Prepare(ghost w: Write, content: Option<Content>, a: Answers) returns (mine: Option<nat>, ready: bool)
      requires Sound(w) && Now() == w.start && w.content == content
      modifies this`files, this`trace
      ensures Sound(w) && old(trace) <= trace && TempsAre(w.start.files, files, mine, None)
      ensures forall n: Name :: !n.Temp? ==> SameFile(w.start.files, files, n)
      ensures (mine.Some? <==> Begun(a)) && (mine.Some? ==> Temp(mine.value) !in w.start.files)
      ensures (ready <==> Filled(a, content)) && (ready ==> w.content == Some(files[Temp(mine.value)]))
    {
      hide Safe, Sound;
      if !a(MakeDir) || !a(MakeTemp) { return None, false; }
      var id := CreateTemp(w);
      mine, ready := Some(id), false;
      if a(OpenTemp) && content.Some? {
        ghost var written := Fill(w, id, content.value, a(WriteTemp));
        ready := a(WriteTemp) && a(ChmodTemp) && a(FindConfig);
      }
    }

    /** From the lookup on: backs the old config up and publishes the new one. */
    method Install(ghost w: Write, mine: nat, a: Answers) returns (done: bool, ghost copy: Option<nat>)
      requires Sound(w) && held == w.start.held && forall n: Name :: !n.Temp? ==> SameFile(w.start.files, files, n)
      requires TempsAre(w.start.files, files, Some(mine), None) && Temp(mine) in files && Temp(mine) !in w.start.files
      requires w.content == Some(files[Temp(mine)])
      modifies this`files, this`trace, this`origin, this`held
      ensures Sound(w) && old(trace) <= trace
      ensures TempsAre(w.start.files, files, if done then None else Some(mine), copy)
      ensures copy.Some? ==> copy.value != mine && Temp(copy.value) !in w.start.files
      ensures held == w.start.held + (if done then [w.content.value] else [])
      ensures var found := Config in w.start.files && SlotFound(a, w.slot) && a(ChmodConfig);
        && (Backup(w.slot) in files <==> found && Copied(a))
        && (done <==> (Config in w.start.files ==> found && Copied(a)) && a(ReplaceConfig))
        && (copy.Some? <==> found && a(MakeBackupTemp) && !Copied(a) && !a(UnlinkBackupTemp))
    {
      assert Backup(w.slot) !in files by { SlotUnused(w); }
      hide Safe, Sound, Copied, SlotFound;
      assert SameFile(w.start.files, files, Config);
      copy := None;
      var ok := true;
      if Config in files { ok, copy := BackUp(w, mine, a); }
      done := ok && a(ReplaceConfig);
      if done { PublishConfig(w, mine); }
    }

    /**
     _write_config.  Wherever it is killed, every recorded state is safe.  Which calls
     succeed decides everything else: how it ends, whether the config and the backup are
     in place, and which temporary files, `mine` and `copy`, stay behind; no other file
     differs.
     */
    method WriteConfig(content: Option<Content>, a: Answers)
      returns (r: Outcome, ghost w: Write, ghost mine: Option<nat>, ghost copy: Option<nat>)
      requires Current(Now())
      modifies this
      ensures w.start == old(Now()) && w.from == |old(trace)| && w.content == content
      ensures Sound(w) && old(trace) <= trace && IsLeastFree(old(files), w.slot)
      ensures var existed := Config in old(files);
        && r == Ending(a, content, existed, w.slot)
        && held == old(held) + (if Published(a, content, existed, w.slot) then [ContentOf(w.content)] else [])
        && (mine.Some? <==> TempLeft(a, content, existed, w.slot))
        && (copy.Some? <==> BackupTempLeft(a, content, existed, w.slot))
        && Result(w, BackedUp(a, content, existed, w.slot), Published(a, content, existed, w.slot), mine, copy)
      ensures forall id :: mine == Some(id) || copy == Some(id) ==> Temp(id) in files && Temp(id) !in old(files)
      ensures mine.Some? ==> mine != copy
      // Call by call: True exactly when every call on the way succeeded, and then the new content stands;
      ensures r == Returned(true) <==>
        && content.Some? && a(MakeDir) && a(MakeTemp) && a(OpenTemp) && a(WriteTemp) && a(ChmodTemp) && a(FindConfig)
        && (Config in old(files) ==>
              && (forall k: nat :: k <= w.slot ==> a(FindBackup(k))) && a(ChmodConfig)
              && a(MakeBackupTemp) && a(CopyConfig) && a(ChmodBackup) && a(ReplaceBackup))
        && a(ReplaceConfig) && a(ChmodNewConfig)
      ensures r == Returned(true) ==>
        Config in files && files[Config] == content.value && held == old(held) + [content.value]
      // raised exactly when a temporary file was made, nothing was published, and its unlink failed or
      // the value could not be serialized;
      ensures r.Raised? <==>
        a(MakeDir) && a(MakeTemp) && held == old(held) && (!a(UnlinkTemp) || (a(OpenTemp) && content.None?))
      // its own temporary file stays exactly when its unlink failed; a backup appears when its calls succeed.
      ensures mine.Some? <==> a(MakeDir) && a(MakeTemp) && held == old(held) && !a(UnlinkTemp)
      ensures Backup(w.slot) in files ==> Config in old(files) && files[Backup(w.slot)] == old(files)[Config]
      ensures copy.Some? ==> a(MakeBackupTemp) && !a(UnlinkBackupTemp) && Backup(w.slot) !in files && held == old(held)
    {
      ghost var slot := LeastFreeExists(files);
      w := Write(Now(), slot, content, |trace|);
      assert Sound(w);
      hide Safe, Sound, Copied, SlotFound, IsLeastFree, TempsAre, Result, After;
      ghost var existed := Config in files;
      var temp, ready := Prepare(w, content, a);
      r := Returned(false);
      mine, copy := None, None;
      var done := false;
      if ready {
        assert Temp(temp.value) in files by { Listed(w, temp.value); }
        done, copy := Install(w, temp.value, a);
        if done { r := Returned(a(ChmodNewConfig)); }
      } else {
        assert Backup(slot) !in files by { SlotUnused(w); }
        if temp.Some? && a(OpenTemp) && content.None? { r := Raised; }  // the value cannot be serialized
      }
      if temp.Some? && !done {
        UnlinkMine(w, temp.value, copy, a(UnlinkTemp));
        if !a(UnlinkTemp) { r, mine := Raised, temp; }
      }
      FinalFiles(w, BackedUp(a, content, existed, slot), done, mine, copy);
      CallByCall(a, content, existed, slot);
      ResultFiles(w, BackedUp(a, content, existed, slot), done, mine, copy);
    }

    lemma ResultFiles(w: Write, backedUp: bool, published: bool, mine: Option<nat>, copy: Option<nat>)
      requires Result(w, backedUp, published, mine, copy) && IsLeastFree(w.start.files, w.slot)
      ensures published ==> Config in files && files[Config] == ContentOf(w.content)
      ensures Backup(w.slot) in files <==> backedUp
      ensures backedUp ==> Config in w.start.files && files[Backup(w.slot)] == w.start.files[Config]
    {
      var after := After(w.start.files, w.slot, ContentOf(w.content), backedUp, published);
      assert SameFile(after, files, Config) && SameFile(after, files, Backup(w.slot));
    }

    lemma Listed(w: Write, id: nat)
      requires TempsAre(w.start.files, files, Some(id), None)
      ensures Temp(id) in files
    {
    }

    /** The `finally` of _write_config. */
    method UnlinkMine(ghost w: Write, id: nat, ghost copy: Option<nat>, ok: bool)
      requires Sound(w) && Temp(id) !in w.start.files && copy != Some(id)
        && TempsAre(w.start.files, files, Some(id), copy)
      modifies this`files, this`trace
      ensures Sound(w) && old(trace) <= trace && TempsAre(w.start.files, files, if ok then None else Some(id), copy)
      ensures Backup(w.slot) in files <==> Backup(w.slot) in old(files)
    {
      hide Safe, Sound;
      Unlink(w, id, ok);
    }

    /** The directory is exactly what the write makes of it, apart from what stays behind. */
    ghost predicate Result(w: Write, backedUp: bool, published: bool, mine: Option<nat>, copy: Option<nat>)
      reads this
    {
      && (backedUp ==> Config in w.start.files)
      && forall n: Name :: (n.Temp? && (mine == Some(n.id) || copy == Some(n.id)))
           || SameFile(After(w.start.files, w.slot, ContentOf(w.content), backedUp, published), files, n)
    }

    /** A safe state whose backup, history and temporary files are known is known. */
    lemma FinalFiles(w: Write, backedUp: bool, published: bool, mine: Option<nat>, copy: Option<nat>)
      requires Sound(w) && TempsAre(w.start.files, files, mine, copy)
      requires held == w.start.held + (if published then [ContentOf(w.content)] else [])
      requires (Backup(w.slot) in files <==> backedUp) && (backedUp ==> Config in w.start.files)
      ensures Result(w, backedUp, published, mine, copy)
      ensures forall id :: mine == Some(id) || copy == Some(id) ==> Temp(id) in files
    {
      var after := After(w.start.files, w.slot, ContentOf(w.content), backedUp, published);
      forall n: Name | !(n.Temp? && (mine == Some(n.id) || copy == Some(n.id))) ensures SameFile(after, files, n) {
        if n.Temp? { assert Temp(n.id) in files <==> Temp(n.id) in w.start.files; }
      }
    }

    /** When every call succeeds the new content stands, the old one is in the new backup, and nothing else differs. */
    method WriteWithoutFailure(content: Content, a: Answers) returns (r: Outcome, ghost slot: nat)
      requires Current(Now()) && forall s :: a(s)
      modifies this
      ensures r == Returned(true) && IsLeastFree(old(files), slot)
      ensures files == After(old(files), slot, content, Config in old(files), true)
    {
      hide Sound, Current, IsLeastFree;
      ghost var w, mine, copy;
      r, w, mine, copy := WriteConfig(Some(content), a);
      slot := w.slot;
      hide After;
      ghost var after := After(old(files), slot, content, Config in old(files), true);
      assert forall n: Name :: SameFile(after, files, n);
      SameMap(after, files);
    }

    /**
     Any number of writes, each succeeding, failing anywhere or killed at any of its
     steps.  `states` are the directories between them, each made of the one before by its
     write; the history invariant holds throughout, and no backup is ever overwritten.
     */
    method RunHistory(attempts: seq<Attempt>) returns (ghost states: seq<Snapshot>)
      requires Kept(Now())
      modifies this
      ensures |states| == |attempts| + 1 && states[0] == old(Now()) && states[|attempts|] == Now()
      ensures forall n :: 0 <= n < |attempts| ==> Written(states[n], attempts[n], states[n + 1])
      ensures forall n :: 0 <= n <= |attempts| ==> Kept(states[n])
      ensures old(held) <= held && forall i: nat :: Backup(i) in old(files) ==> KeepsBackup(old(files), files, i)
    {
      hide Kept, Written, KeepsBackup;
      forall i: nat | Backup(i) in files ensures KeepsBackup(files, files, i) { BackupSame(files, i); }
      states := [Now()];
      for n := 0 to |attempts|
        invariant |states| == n + 1 && states[0] == old(Now()) && states[n] == Now()
        invariant forall k :: 0 <= k < n ==> Written(states[k], attempts[k], states[k + 1])
        invariant forall k :: 0 <= k <= n ==> Kept(states[k])
        invariant old(held) <= held && forall i: nat :: Backup(i) in old(files) ==> KeepsBackup(old(files), files, i)
      {
        ghost var start := Now();
        assert Kept(start);
        OneWrite(attempts[n]);
        forall i: nat | Backup(i) in old(files) ensures KeepsBackup(old(files), files, i) {
          BackupKept(old(files), start.files, files, i);
        }
        states := states + [Now()];
      }
    }

    /** One write, which dies after the given number of its steps if it takes more. */
    method OneWrite(attempt: Attempt)
      requires Kept(Now())
      modifies this
      ensures Written(old(Now()), attempt, Now()) && Kept(Now()) && old(held) <= held
      ensures forall i: nat :: Backup(i) in old(files) ==> KeepsBackup(old(files), files, i)
    {
      hide Kept, Ending, Published, BackedUp, TempLeft, BackupTempLeft;
      ghost var start := Now();
      var before := |trace|;
      assert Current(start) by { KeptIsCurrent(start); }
      ghost var w, mine, copy;
      var r;
      r, w, mine, copy := WriteConfig(attempt.content, attempt.answers);
      if attempt.kill.Some? && before + attempt.kill.value < |trace| {
        var last := trace[before + attempt.kill.value];
        files, held, origin := last.files, last.held, last.origin;
      }
      SafeKeeps(start, w.slot, w.content, Now());
      assert WrittenAt(start, attempt, Now(), w.slot);
    }
  }

  ghost predicate KeepsBackup(before: Files, after: Files, i: nat) {
    Backup(i) in before && Backup(i) in after && after[Backup(i)] == before[Backup(i)]
  }

  lemma BackupSame(files: Files, i: nat)
    requires Backup(i) in files
    ensures KeepsBackup(files, files, i)
  {
  }

  lemma BackupKept(a: Files, b: Files, c: Files, i: nat)
    requires KeepsBackup(a, b, i) && (Backup(i) in b ==> KeepsBackup(b, c, i))
    ensures KeepsBackup(a, c, i)
  {
  }

  /** A write: its content, which of its calls succeed, and the step it dies after, if any. */
  datatype Attempt = Attempt(content: Option<Content>, answers: Answers, kill: Option<nat>)

  /**
   A write, with `slot` the least unused backup index, took `s` to `t`: safely, wherever it
   was killed; and if it was not, exactly as its calls decide, temporary files aside.
   */
  ghost predicate WrittenAt(s: Snapshot, attempt: Attempt, t: Snapshot, slot: nat) {
    var content, existed := attempt.content, Config in s.files;
    var backedUp := BackedUp(attempt.answers, content, existed, slot);
    var published := Published(attempt.answers, content, existed, slot);
    && IsLeastFree(s.files, slot) && Safe(s, slot, content, t)
    && (attempt.kill.None? ==>
          && t.held == s.held + (if published then [ContentOf(content)] else [])
          && forall n: Name :: !n.Temp? ==>
            SameFile(After(s.files, slot, ContentOf(content), backedUp, published), t.files, n))
  }

  ghost predicate Written(s: Snapshot, attempt: Attempt, t: Snapshot) {
    exists slot :: WrittenAt(s, attempt, t, slot)
  }

  /** The last replace and the unlink fail, nothing else does. */
  function LastCallsFail(): Answers { (s: Step) => !s.ReplaceConfig? && !s.UnlinkTemp? }

  /** Such a write of any content over an existing config raises and leaves its temporary file behind. */
  lemma LeftoverExample(content: Content, slot: nat)
    ensures TempLeft(LastCallsFail(), Some(content), true, slot)
      && Ending(LastCallsFail(), Some(content), true, slot) == Raised
    ensures BackedUp(LastCallsFail(), Some(content), true, slot)
  {
  }

  lemma SameMap(a: Files, b: Files)
    requires forall n :: SameFile(a, b, n)
    ensures a == b
  {
    assert a.Keys == b.Keys by { forall n ensures n in a <==> n in b { assert SameFile(a, b, n); } }
    forall n | n in a ensures a[n] == b[n] { assert SameFile(a, b, n); }
  }

  lemma KeptIsCurrent(s: Snapshot)
    requires Kept(s)
    ensures Current(s)
  {
  }

  lemma SameSlot(a: Files, b: Files, i: nat, j: nat)
    requires IsLeastFree(a, i) && IsLeastFree(b, j)
    requires forall k: nat :: SameFile(a, b, Backup(k))
    ensures i == j
  {
    assert SameFile(a, b, Backup(i)) && SameFile(a, b, Backup(j));
  }
}
