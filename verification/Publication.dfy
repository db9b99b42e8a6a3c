/** Crash-safe publication of a versioned directory tree behind a link, in the two forms
    the Runner uses: account state, copied straight into a new version directory, and
    certificates, written to a temporary directory that is renamed. A process may die
    between any two steps, and any step may fail. */
module Publication {
  import opened Basics
  import Decimal

  type File = string
  type Tree = map<File, string>

  datatype Style = Accounts | Certificates

  // ----- names -------------------------------------------------------------------------------

  predicate IsHex(c: char) {
    Decimal.IsDigit(c) || 'a' <= c <= 'f'
  }

  predicate AllHex(s: string) {
    forall i | 0 <= i < |s| :: IsHex(s[i])
  }

  const TMP_PREFIX := ".tmp-"

  function NewName(style: Style, fingerprint: string, nanos: nat, nonce: string): string {
    match style
    case Accounts => Decimal.Render(nanos) + "-" + nonce
    case Certificates => fingerprint + "-" + Decimal.Render(nanos)
  }

  function TmpName(final: string, nonce: string): string {
    TMP_PREFIX + final + "-" + nonce
  }

  /** The pattern a version name must match: digits, hyphen and eight hexadecimal digits,
      or sixteen hexadecimal digits, hyphen and digits. */
  predicate WellFormed(style: Style, name: string) {
    match style
    case Accounts =>
      && |name| >= 10 && name[|name| - 9] == '-'
      && Decimal.AllDigits(name[..|name| - 9]) && AllHex(name[|name| - 8..])
    case Certificates =>
      |name| >= 18 && name[16] == '-' && AllHex(name[..16]) && Decimal.AllDigits(name[17..])
  }

  /** What pruning may touch, besides keeping one. */
  predicate Prunable(style: Style, name: string) {
    WellFormed(style, name) || (style == Certificates && TMP_PREFIX <= name)
  }

  lemma {:induction false} NewNamesAreWellFormed(style: Style, fingerprint: string, nanos: nat, nonce: string)
    requires |nonce| == 8 && AllHex(nonce) && |fingerprint| == 16 && AllHex(fingerprint)
    ensures WellFormed(style, NewName(style, fingerprint, nanos, nonce))
  {
    Decimal.RenderIsReadable(nanos);
    var name := NewName(style, fingerprint, nanos, nonce);
    if style == Accounts {
      assert name[..|name| - 9] == Decimal.Render(nanos) && name[|name| - 8..] == nonce;
    } else {
      assert name[..16] == fingerprint && name[17..] == Decimal.Render(nanos);
    }
  }

  lemma TmpNamesAreNotVersions(name: string)
    requires TMP_PREFIX <= name
    ensures !WellFormed(Certificates, name)
  {
    assert |name| >= 16 ==> name[..16][0] == TMP_PREFIX[0] && !IsHex(name[..16][0]);
  }

  // ----- the disk ------------------------------------------------------------------------------

  /** The version directories, the published link and the temporary links beside it. */
  datatype Disk = Disk(versions: map<string, Tree>, link: Option<string>, temps: map<string, string>)

  /** The check every reader and account publisher makes first: the link, if any, names a
      well-formed version that is there. */
  predicate LayoutOk(style: Style, d: Disk) {
    d.link.Some? ==> WellFormed(style, d.link.value) && d.link.value in d.versions
  }

  /** What a reader of the link sees. */
  function Visible(d: Disk): Option<Tree>
    requires d.link.Some? ==> d.link.value in d.versions
  {
    if d.link.None? then None else Some(d.versions[d.link.value])
  }

  // ----- processes -------------------------------------------------------------------------------

  datatype Stage =
    | MakeDir
    | Copy(todo: set<File>)
    | RenameDir
    | MakeLink
    | SwapLink
    | Swapped
    | Prune
    | Clean(dir: string)
    | Ended(ok: bool)

  /** The process holding the exclusive lock. */
  datatype Writer = Writer(src: Tree, name: string, tmp: string, nonce: string, stage: Stage)

  /** A process holding the shared lock and copying what the link names. */
  datatype Reader = Reader(from: Option<string>, todo: set<File>, got: Tree)

  /** committed is what the last swap published. */
  datatype State = State(
    style: Style, disk: Disk, holder: Option<Writer>, readers: map<nat, Reader>, committed: Option<Tree>)

  function WorkDir(style: Style, w: Writer): string {
    if style == Accounts then w.name else w.tmp
  }

  datatype Step =
    | Acquire(src: Tree, fingerprint: string, nanos: nat, nonce: string)
    | Make
    | CopyPart(file: File, n: nat)
    | CopyFile(file: File)
    | EndCopy
    | Commit
    | Link
    | Swap
    | BeginPrune
    | PruneFile(dir: string, file: File)
    | PruneDir(dir: string)
    | EndPrune
    | CleanFile(file: File)
    | EndClean
    | Fail
    | Release
    | Crash
    | BeginRead(reader: nat)
    | ReadFile(reader: nat, file: File)
    | EndRead(reader: nat)

  predicate In(s: State, stage: Stage) {
    s.holder.Some? && s.holder.value.stage == stage
  }

  predicate Copying(s: State) {
    s.holder.Some? && s.holder.value.stage.Copy? && WorkDir(s.style, s.holder.value) in s.disk.versions
  }

  predicate Enabled(s: State, step: Step) {
    match step
    // The name of an account version, a time in nanoseconds with a nonce, has not been used.
    case Acquire(src, fingerprint, nanos, nonce) =>
      && s.holder.None? && s.readers == map[]
      && |nonce| == 8 && AllHex(nonce) && |fingerprint| == 16 && AllHex(fingerprint)
      && (s.style == Certificates ==> src != map[])
      && (s.style == Accounts ==> NewName(s.style, fingerprint, nanos, nonce) !in s.disk.versions)
    // Creating a temporary directory fails when it exists.
    case Make => In(s, MakeDir) && WorkDir(s.style, s.holder.value) !in s.disk.versions
    case CopyPart(f, n) =>
      Copying(s) && f in s.holder.value.stage.todo && f in s.holder.value.src && n <= |s.holder.value.src[f]|
    case CopyFile(f) => Copying(s) && f in s.holder.value.stage.todo && f in s.holder.value.src
    case EndCopy => Copying(s) && s.holder.value.stage.todo == {}
    // A rename onto a directory that is not empty fails.
    case Commit =>
      && In(s, RenameDir) && s.holder.value.tmp in s.disk.versions
      && (s.holder.value.name in s.disk.versions ==> s.disk.versions[s.holder.value.name] == map[])
    case Link => In(s, MakeLink) && s.holder.value.nonce !in s.disk.temps
    case Swap => In(s, SwapLink) && s.holder.value.nonce in s.disk.temps
    case BeginPrune => In(s, Swapped)
    case PruneFile(dir, f) =>
      && In(s, Prune) && dir in s.disk.versions && dir != s.holder.value.name && Prunable(s.style, dir)
      && f in s.disk.versions[dir]
    case PruneDir(dir) =>
      && In(s, Prune) && dir in s.disk.versions && dir != s.holder.value.name && Prunable(s.style, dir)
      && s.disk.versions[dir] == map[]
    case EndPrune => In(s, Prune)
    case CleanFile(f) =>
      && s.holder.Some? && s.holder.value.stage.Clean? && s.holder.value.stage.dir in s.disk.versions
      && f in s.disk.versions[s.holder.value.stage.dir]
    case EndClean => s.holder.Some? && s.holder.value.stage.Clean?
    case Fail => s.holder.Some? && !s.holder.value.stage.Ended? && !s.holder.value.stage.Clean?
    case Release => s.holder.Some? && s.holder.value.stage.Ended?
    case Crash => true
    case BeginRead(r) => s.holder.None? && r !in s.readers && LayoutOk(s.style, s.disk)
    case ReadFile(r, f) =>
      && r in s.readers && f in s.readers[r].todo
      && s.readers[r].from.Some? && s.readers[r].from.value in s.disk.versions
      && f in s.disk.versions[s.readers[r].from.value]
    case EndRead(r) => r in s.readers && s.readers[r].todo == {}
  }

  function At(s: State, stage: Stage): State
    requires s.holder.Some?
  {
    s.(holder := Some(s.holder.value.(stage := stage)))
  }

  function Put(s: State, dir: string, tree: Tree): State {
    s.(disk := s.disk.(versions := s.disk.versions[dir := tree]))
  }

  function CopyStep(s: State, f: File, data: string, todo: set<File>): State
    requires Copying(s)
  {
    var dir := WorkDir(s.style, s.holder.value);
    At(Put(s, dir, s.disk.versions[dir][f := data]), Copy(todo))
  }

  /** Where an error leads: nothing published yet is removed again, the link is left alone. */
  function FailNext(s: State): State
    requires s.holder.Some?
  {
    var w := s.holder.value;
    match w.stage
    case MakeDir => At(s, if s.style == Accounts then Clean(w.name) else Ended(false))
    case Copy(_) => At(s, Clean(WorkDir(s.style, w)))
    case RenameDir => At(s, Clean(w.tmp))
    case MakeLink => At(s, Clean(w.name))
    case SwapLink => At(s.(disk := s.disk.(temps := s.disk.temps - {w.nonce})), Clean(w.name))
    case Swapped => At(s, Ended(false))
    case Prune => At(s, Ended(true))
    case Clean(_) => At(s, Ended(false))
    case Ended(_) => s
  }

  function Apply(s: State, step: Step): State
    requires Enabled(s, step)
  {
    match step
    case Acquire(src, fingerprint, nanos, nonce) =>
      var name := NewName(s.style, fingerprint, nanos, nonce);
      // An account publisher refuses a layout it would not have written.
      var stage := if s.style == Accounts && !LayoutOk(s.style, s.disk) then Ended(false) else MakeDir;
      s.(holder := Some(Writer(src, name, TmpName(name, nonce), nonce, stage)))
    case Make => At(Put(s, WorkDir(s.style, s.holder.value), map[]), Copy(s.holder.value.src.Keys))
    case CopyPart(f, n) => CopyStep(s, f, s.holder.value.src[f][..n], s.holder.value.stage.todo)
    case CopyFile(f) => CopyStep(s, f, s.holder.value.src[f], s.holder.value.stage.todo - {f})
    case EndCopy => At(s, if s.style == Accounts then MakeLink else RenameDir)
    case Commit =>
      var w := s.holder.value;
      var versions := (s.disk.versions - {w.tmp})[w.name := s.disk.versions[w.tmp]];
      At(s.(disk := s.disk.(versions := versions)), MakeLink)
    case Link =>
      At(s.(disk := s.disk.(temps := s.disk.temps[s.holder.value.nonce := s.holder.value.name])), SwapLink)
    case Swap =>
      var nonce := s.holder.value.nonce;
      At(s.(disk := s.disk.(link := Some(s.disk.temps[nonce]), temps := s.disk.temps - {nonce}),
            committed := Some(s.holder.value.src)), Swapped)
    case BeginPrune => At(s, Prune)
    case PruneFile(dir, f) => Put(s, dir, s.disk.versions[dir] - {f})
    case PruneDir(dir) => s.(disk := s.disk.(versions := s.disk.versions - {dir}))
    case EndPrune => At(s, Ended(true))
    case CleanFile(f) => Put(s, s.holder.value.stage.dir, s.disk.versions[s.holder.value.stage.dir] - {f})
    case EndClean =>
      // The directory goes if it is empty; an error in removing it is ignored.
      var dir := s.holder.value.stage.dir;
      var versions := if dir in s.disk.versions && s.disk.versions[dir] == map[] then s.disk.versions - {dir}
                      else s.disk.versions;
      At(s.(disk := s.disk.(versions := versions)), Ended(false))
    case Fail => FailNext(s)
    case Release => s.(holder := None)
    case Crash => s.(holder := None, readers := map[])
    case BeginRead(r) =>
      var todo := if s.disk.link.Some? then s.disk.versions[s.disk.link.value].Keys else {};
      s.(readers := s.readers[r := Reader(s.disk.link, todo, map[])])
    case ReadFile(r, f) =>
      var reader := s.readers[r];
      s.(readers := s.readers[r := Reader(reader.from, reader.todo - {f},
                                          reader.got[f := s.disk.versions[reader.from.value][f]])])
    case EndRead(r) => s.(readers := s.readers - {r})
  }

  // ----- the invariant ------------------------------------------------------------------------------

  /** The link names a complete version: the one the last swap published. */
  predicate DiskOk(s: State) {
    && LayoutOk(s.style, s.disk)
    && Visible(s.disk) == s.committed
    && (s.style == Certificates && s.committed.Some? ==> s.committed.value != map[])
  }

  predicate PartlyCopied(dir: Tree, src: Tree, todo: set<File>) {
    && dir.Keys <= src.Keys && todo <= src.Keys
    && forall f | f in src && f !in todo :: f in dir && dir[f] == src[f]
  }

  predicate HolderOk(s: State, w: Writer) {
    var d := s.disk;
    && WellFormed(s.style, w.name) && TMP_PREFIX <= w.tmp
    && (s.style == Certificates ==> w.src != map[])
    && match w.stage
       case MakeDir => s.style == Accounts ==> w.name !in d.versions
       case Copy(todo) =>
         && WorkDir(s.style, w) in d.versions && d.link != Some(WorkDir(s.style, w))
         && PartlyCopied(d.versions[WorkDir(s.style, w)], w.src, todo)
       case RenameDir => s.style == Certificates && w.tmp in d.versions && d.versions[w.tmp] == w.src
       case MakeLink => w.name in d.versions && d.versions[w.name] == w.src && d.link != Some(w.name)
       case SwapLink =>
         && w.name in d.versions && d.versions[w.name] == w.src && d.link != Some(w.name)
         && w.nonce in d.temps && d.temps[w.nonce] == w.name
       case Swapped => d.link == Some(w.name) && s.committed == Some(w.src)
       case Prune => d.link == Some(w.name) && s.committed == Some(w.src)
       case Clean(dir) => d.link != Some(dir)
       case Ended(ok) => ok ==> s.committed == Some(w.src)
  }

  predicate ReaderOk(s: State, r: Reader) {
    && r.from == s.disk.link
    && match s.committed
       case None => r.got == map[] && r.todo == {}
       case Some(tree) =>
         && r.todo <= tree.Keys && r.got.Keys == tree.Keys - r.todo
         && forall f | f in r.got :: r.got[f] == tree[f]
  }

  ghost predicate Inv(s: State) {
    && DiskOk(s)
    && (s.holder.Some? ==> HolderOk(s, s.holder.value) && s.readers == map[])
    && forall r | r in s.readers :: ReaderOk(s, s.readers[r])
  }

  predicate Init(s: State) {
    && DiskOk(s) && s.holder.None? && s.readers == map[]
  }

  lemma {:induction false} ReadersKeep(s: State, step: Step)
    requires Inv(s) && Enabled(s, step)
    requires step.BeginRead? || step.ReadFile? || step.EndRead?
    ensures Inv(Apply(s, step))
  {}

  /** A step of the lock holder that leaves the link and the version it names alone. */
  lemma {:induction false} BesidesTheLink(s: State, after: State)
    requires DiskOk(s) && after.style == s.style && after.committed == s.committed && after.disk.link == s.disk.link
    requires s.disk.link.Some? ==>
               s.disk.link.value in after.disk.versions
               && after.disk.versions[s.disk.link.value] == s.disk.versions[s.disk.link.value]
    ensures DiskOk(after)
  {}

  lemma {:induction false} CopyKeeps(s: State, f: File, data: string, todo: set<File>)
    requires Inv(s) && Copying(s) && f in s.holder.value.stage.todo
    requires todo == s.holder.value.stage.todo || (todo == s.holder.value.stage.todo - {f} && data == s.holder.value.src[f])
    ensures Inv(CopyStep(s, f, data, todo))
  {}

  lemma {:induction false} AcquireKeeps(s: State, step: Step)
    requires Inv(s) && step.Acquire? && Enabled(s, step)
    ensures Inv(Apply(s, step))
  {
    NewNamesAreWellFormed(s.style, step.fingerprint, step.nanos, step.nonce);
  }

  lemma {:induction false} MakeKeeps(s: State)
    requires Inv(s) && Enabled(s, Make)
    ensures Inv(Apply(s, Make))
  {}

  lemma {:induction false} EndCopyKeeps(s: State)
    requires Inv(s) && Enabled(s, EndCopy)
    ensures Inv(Apply(s, EndCopy))
  {}

  lemma {:induction false} CommitKeeps(s: State)
    requires Inv(s) && Enabled(s, Commit)
    ensures Inv(Apply(s, Commit))
  {
    TmpNamesAreNotVersions(s.holder.value.tmp);
    BesidesTheLink(s, Apply(s, Commit));
  }

  lemma {:induction false} FailKeeps(s: State)
    requires Inv(s) && Enabled(s, Fail)
    ensures Inv(Apply(s, Fail))
  {
    BesidesTheLink(s, Apply(s, Fail));
    TmpNamesAreNotVersions(s.holder.value.tmp);
  }

  lemma {:induction false} RemovalKeeps(s: State, step: Step)
    requires Inv(s) && Enabled(s, step)
    requires step.PruneFile? || step.PruneDir? || step.CleanFile? || step.EndClean?
    ensures Inv(Apply(s, step))
  {
    BesidesTheLink(s, Apply(s, step));
  }

  lemma {:induction false} InvIsInductive(s: State, step: Step)
    requires Inv(s) && Enabled(s, step)
    ensures Inv(Apply(s, step))
  {
    match step
    case Acquire(_, _, _, _) => AcquireKeeps(s, step);
    case Make => MakeKeeps(s);
    case CopyPart(f, n) => CopyKeeps(s, f, s.holder.value.src[f][..n], s.holder.value.stage.todo);
    case CopyFile(f) => CopyKeeps(s, f, s.holder.value.src[f], s.holder.value.stage.todo - {f});
    case EndCopy => EndCopyKeeps(s);
    case Commit => CommitKeeps(s);
    case Link =>
    case Swap =>
    case BeginPrune =>
    case EndPrune =>
    case PruneFile(_, _) => RemovalKeeps(s, step);
    case PruneDir(_) => RemovalKeeps(s, step);
    case CleanFile(_) => RemovalKeeps(s, step);
    case EndClean => RemovalKeeps(s, step);
    case Fail => FailKeeps(s);
    case Release =>
    case Crash =>
    case BeginRead(_) => ReadersKeep(s, step);
    case ReadFile(_, _) => ReadersKeep(s, step);
    case EndRead(_) => ReadersKeep(s, step);
  }

  // ----- whole runs -----------------------------------------------------------------------------------

  ghost predicate StepAt(states: seq<State>, steps: seq<Step>, i: nat)
    requires i < |steps| && |states| == |steps| + 1
  {
    Enabled(states[i], steps[i]) && states[i + 1] == Apply(states[i], steps[i])
  }

  ghost predicate IsRun(states: seq<State>, steps: seq<Step>) {
    |states| == |steps| + 1 && Init(states[0]) && forall i: nat | i < |steps| :: StepAt(states, steps, i)
  }

  lemma {:induction false} InvHolds(states: seq<State>, steps: seq<Step>, i: nat)
    requires IsRun(states, steps) && i < |states|
    ensures Inv(states[i]) && states[i].style == states[0].style
  {
    if i > 0 {
      InvHolds(states, steps, i - 1);
      assert StepAt(states, steps, i - 1);
      InvIsInductive(states[i - 1], steps[i - 1]);
    }
  }

  /** In every interleaving, with any crashes and failures: the layout check accepts, the
      link is absent or names a complete version, and a step changes what the link shows
      only by swapping it, to the whole of what that writer was given. */
  lemma {:induction false} OnlySwapsShow(states: seq<State>, steps: seq<Step>, i: nat)
    requires IsRun(states, steps) && i < |steps|
    ensures LayoutOk(states[i].style, states[i].disk) && LayoutOk(states[i].style, states[i + 1].disk)
    ensures steps[i] != Swap ==> Visible(states[i + 1].disk) == Visible(states[i].disk)
    ensures steps[i] == Swap ==>
              states[i].holder.Some? && Visible(states[i + 1].disk) == Some(states[i].holder.value.src)
  {
    InvHolds(states, steps, i);
    InvHolds(states, steps, i + 1);
    assert StepAt(states, steps, i);
  }

  /** One writer holds the lock from just after i to j. */
  ghost predicate Held(states: seq<State>, i: nat, j: nat, src: Tree) {
    && i < j < |states|
    && forall k {:trigger states[k].holder} | i < k < j :: states[k].holder.Some? && states[k].holder.value.src == src
  }

  lemma {:induction false} WhileHeld(states: seq<State>, steps: seq<Step>, i: nat, j: nat, src: Tree)
    requires IsRun(states, steps) && Held(states, i, j, src) && states[i].holder.None?
    ensures LayoutOk(states[i].style, states[i].disk) && LayoutOk(states[j].style, states[j].disk)
    ensures Visible(states[j].disk) == Visible(states[i].disk) || Visible(states[j].disk) == Some(src)
    decreases j
  {
    InvHolds(states, steps, i);
    InvHolds(states, steps, j);
    OnlySwapsShow(states, steps, j - 1);
    assert StepAt(states, steps, j - 1);
    if j > i + 1 {
      WhileHeld(states, steps, i, j - 1, src);
      assert states[j - 1].holder.Some?;
    }
  }

  /** A publication is all or nothing: wherever the writer stops, by success, error or
      crash, the link shows what it showed before or the whole new tree; and it shows the
      new tree when the writer reports success. */
  lemma {:induction false} PublicationIsAtomic(states: seq<State>, steps: seq<Step>, i: nat, j: nat, src: Tree)
    requires IsRun(states, steps) && Held(states, i, j, src) && states[i].holder.None?
    ensures LayoutOk(states[i].style, states[i].disk) && LayoutOk(states[j].style, states[j].disk)
    ensures Visible(states[j].disk) == Visible(states[i].disk) || Visible(states[j].disk) == Some(src)
    ensures states[j].holder.Some? && states[j].holder.value.stage == Ended(true) ==>
              Visible(states[j].disk) == Some(states[j].holder.value.src)
  {
    WhileHeld(states, steps, i, j, src);
    InvHolds(states, steps, i);
    InvHolds(states, steps, j);
  }

  /** What a writer that fails before the swap has made it takes away again: it goes on to clean
      up the directory it made, and takes back the link it was about to swap in. */
  lemma FailuresCleanUp(s: State)
    requires Enabled(s, Fail)
    ensures var w, after := s.holder.value, Apply(s, Fail);
            && after.disk.versions == s.disk.versions && after.disk.link == s.disk.link
            && (w.stage.Copy? ==> In(after, Clean(if s.style == Accounts then w.name else w.tmp)))
            && (w.stage == RenameDir ==> In(after, Clean(w.tmp)))
            && (w.stage == MakeLink || w.stage == SwapLink ==> In(after, Clean(w.name)))
            && (w.stage == SwapLink ==> w.nonce !in after.disk.temps)
            && (w.stage == Swapped ==> In(after, Ended(false))) && (w.stage == Prune ==> In(after, Ended(true)))
  {}

  /** A writer that has ended gives the lock back and changes nothing. */
  lemma EndedWritersLetGo(s: State)
    requires s.holder.Some? && s.holder.value.stage.Ended?
    ensures Enabled(s, Release) && Apply(s, Release) == s.(holder := None)
  {}

  /** And the clean-up, when it removes every file, removes the directory. */
  lemma CleanUpRemoves(s: State, dir: string, f: File)
    requires In(s, Clean(dir)) && dir in s.disk.versions
    ensures f in s.disk.versions[dir] ==>
              && Enabled(s, CleanFile(f))
              && var after := Apply(s, CleanFile(f));
              && In(after, Clean(dir)) && dir in after.disk.versions
              && after.disk.versions[dir] == s.disk.versions[dir] - {f}
    ensures Enabled(s, EndClean) && In(Apply(s, EndClean), Ended(false))
    ensures s.disk.versions[dir] == map[] ==> Apply(s, EndClean).disk.versions == s.disk.versions - {dir}
    ensures s.disk.versions[dir] != map[] ==> Apply(s, EndClean).disk.versions == s.disk.versions
  {}

  /** Pruning can remove any other version, file by file. */
  lemma PruningRemoves(s: State, dir: string, f: File)
    requires In(s, Prune) && dir in s.disk.versions && Prunable(s.style, dir) && dir != s.holder.value.name
    ensures f in s.disk.versions[dir] ==>
              && Enabled(s, PruneFile(dir, f))
              && Apply(s, PruneFile(dir, f)) ==
                   s.(disk := s.disk.(versions := s.disk.versions[dir := s.disk.versions[dir] - {f}]))
    ensures s.disk.versions[dir] == map[] ==>
              && Enabled(s, PruneDir(dir))
              && Apply(s, PruneDir(dir)) == s.(disk := s.disk.(versions := s.disk.versions - {dir}))
  {}

  predicate Faulty(step: Step) {
    step.Fail? || step.Crash?
  }

  /** Nothing has gone wrong for the writer so far. */
  predicate Unhurt(stage: Stage) {
    !stage.Clean? && stage != Ended(false)
  }

  lemma {:induction false} FaultlessStep(s: State, step: Step)
    requires Inv(s) && Enabled(s, step) && !Faulty(step) && Apply(s, step).holder.Some?
    requires s.holder.Some? ==> Unhurt(s.holder.value.stage)
    ensures Unhurt(Apply(s, step).holder.value.stage)
  {}

  /** A publication that meets no failure and no crash succeeds: it can end in no other way
      than by reporting success, with the new tree on show. */
  lemma {:induction false} FaultlessPublicationShows(states: seq<State>, steps: seq<Step>, i: nat, j: nat, src: Tree)
    requires IsRun(states, steps) && Held(states, i, j, src) && states[i].holder.None? && states[j].holder.Some?
    requires forall k: nat | i <= k < j :: !Faulty(steps[k])
    ensures Unhurt(states[j].holder.value.stage)
    ensures states[j].holder.value.stage.Ended? ==>
              && states[j].holder.value.stage == Ended(true)
              && LayoutOk(states[j].style, states[j].disk)
              && Visible(states[j].disk) == Some(states[j].holder.value.src)
    decreases j
  {
    InvHolds(states, steps, j - 1);
    InvHolds(states, steps, j);
    assert StepAt(states, steps, j - 1);
    if j > i + 1 {
      assert states[j - 1].holder.Some?;
      FaultlessPublicationShows(states, steps, i, j - 1, src);
    }
    FaultlessStep(states[j - 1], steps[j - 1]);
  }

  /** The names the writer has drawn are free for what it has still to make. */
  predicate NamesFree(style: Style, d: Disk, w: Writer) {
    && (w.stage == MakeDir ==> WorkDir(style, w) !in d.versions)
    && (style == Certificates && (w.stage == MakeDir || w.stage.Copy? || w.stage == RenameDir) ==>
          w.name in d.versions ==> d.versions[w.name] == map[])
    && (w.stage == MakeDir || w.stage.Copy? || w.stage == RenameDir || w.stage == MakeLink ==> w.nonce !in d.temps)
  }

  /** How many steps the writer still needs. */
  function StepsLeft(w: Writer): nat {
    match w.stage
    case MakeDir => |w.src.Keys| + 8
    case Copy(todo) => |todo| + 7
    case RenameDir => 6
    case MakeLink => 5
    case SwapLink => 4
    case Swapped => 3
    case Prune => 2
    case _ => 0
  }

  /** The writer is nearer to its end, and still unhurt and with free names. */
  ghost predicate MovesOn(s: State, step: Step)
    requires s.holder.Some?
  {
    && Enabled(s, step) && !Faulty(step)
    && var w, after := s.holder.value, Apply(s, step);
    && after.style == s.style && after.holder.Some? && after.holder.value.src == w.src
    && Unhurt(after.holder.value.stage) && NamesFree(after.style, after.disk, after.holder.value)
    && StepsLeft(after.holder.value) < StepsLeft(w)
  }

  lemma {:induction false} CopyMovesOn(s: State, f: File)
    requires Inv(s) && Copying(s) && NamesFree(s.style, s.disk, s.holder.value) && f in s.holder.value.stage.todo
    ensures MovesOn(s, CopyFile(f))
  {
    var todo := s.holder.value.stage.todo;
    TmpNamesAreNotVersions(s.holder.value.tmp);
    assert todo - {f} < todo;
  }

  lemma {:induction false} MakeMovesOn(s: State)
    requires Inv(s) && In(s, MakeDir) && NamesFree(s.style, s.disk, s.holder.value)
    ensures MovesOn(s, Make)
  {
    TmpNamesAreNotVersions(s.holder.value.tmp);
  }

  lemma {:induction false} CommitMovesOn(s: State)
    requires Inv(s) && In(s, RenameDir) && NamesFree(s.style, s.disk, s.holder.value)
    ensures MovesOn(s, Commit)
  {}

  lemma {:induction false} EndCopyMovesOn(s: State)
    requires Inv(s) && Copying(s) && NamesFree(s.style, s.disk, s.holder.value) && s.holder.value.stage.todo == {}
    ensures MovesOn(s, EndCopy)
  {}

  lemma {:induction false} LinkMovesOn(s: State)
    requires Inv(s) && In(s, MakeLink) && NamesFree(s.style, s.disk, s.holder.value)
    ensures MovesOn(s, Link)
  {}

  lemma {:induction false} SwapMovesOn(s: State)
    requires Inv(s) && In(s, SwapLink)
    ensures MovesOn(s, Swap)
  {}

  lemma {:induction false} PruningMovesOn(s: State)
    requires s.holder.Some? && (In(s, Swapped) || In(s, Prune))
    ensures MovesOn(s, if In(s, Swapped) then BeginPrune else EndPrune)
  {}

  /** Nor can it get stuck: with free names there is always a step that is neither a failure
      nor a crash, and brings the writer nearer to its end. */
  lemma {:induction false} SomeStepIsOpen(s: State) returns (step: Step)
    requires Inv(s) && s.holder.Some? && Unhurt(s.holder.value.stage) && s.holder.value.stage != Ended(true)
    requires NamesFree(s.style, s.disk, s.holder.value)
    ensures MovesOn(s, step)
  {
    var stage := s.holder.value.stage;
    if stage == MakeDir {
      step := Make;
      MakeMovesOn(s);
    } else if stage.Copy? && stage.todo == {} {
      step := EndCopy;
      EndCopyMovesOn(s);
    } else if stage.Copy? {
      var f :| f in stage.todo;
      step := CopyFile(f);
      CopyMovesOn(s, f);
    } else if stage == RenameDir {
      step := Commit;
      CommitMovesOn(s);
    } else if stage == MakeLink {
      step := Link;
      LinkMovesOn(s);
    } else if stage == SwapLink {
      step := Swap;
      SwapMovesOn(s);
    } else {
      step := if stage == Swapped then BeginPrune else EndPrune;
      PruningMovesOn(s);
    }
  }

  /** A reader that finishes has copied exactly one published version, the one that is
      still current, or nothing when nothing has been published. */
  lemma {:induction false} ReadersGetOneVersion(states: seq<State>, steps: seq<Step>, i: nat, r: nat)
    requires IsRun(states, steps) && i < |steps| && steps[i] == EndRead(r)
    ensures r in states[i].readers
    ensures LayoutOk(states[i].style, states[i].disk)
    ensures var got := states[i].readers[r].got;
            match Visible(states[i].disk) case None => got == map[] case Some(tree) => got == tree
  {
    InvHolds(states, steps, i);
    assert StepAt(states, steps, i);
    assert ReaderOk(states[i], states[i].readers[r]);
  }

  /** Why the name of an account version must be new: with the name of the published
      version, the copy goes into that version, and a reader after a crash sees a file cut
      short. A certificate version would not be touched: the rename onto it fails. */
  lemma AUsedNameDamagesTheVersion(name: string, was: Tree, src: Tree, nonce: string, f: File)
    requires WellFormed(Accounts, name) && f in was && f in src && was[f] != "" && src[f] != ""
    ensures var d := Disk(map[name := was], Some(name), map[]);
            var w := Writer(src, name, TmpName(name, nonce), nonce, Copy(src.Keys));
            var s := State(Accounts, d, Some(w), map[], Some(was));
            && Enabled(s, CopyPart(f, 0))
            && var crashed := Apply(Apply(s, CopyPart(f, 0)), Crash);
            && LayoutOk(Accounts, crashed.disk)
            && Visible(crashed.disk) != Some(was) && Visible(crashed.disk) != Some(src)
  {}

  lemma ACertificateVersionIsNeverRenamedOver(s: State)
    requires Inv(s) && s.style == Certificates && In(s, RenameDir)
    requires s.disk.link == Some(s.holder.value.name)
    ensures !Enabled(s, Commit)
  {}
}
