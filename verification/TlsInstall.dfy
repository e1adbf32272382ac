/**
 The TLS secret reconciler (internal/controller/secret_controller.go): it installs a secret once per
 resource version, remembering the version in memory and in a file, through errors, crashes and
 restarts at any point.
 */
module TlsInstall {
  import opened Wrappers
  import opened TlsFiles
  import opened TlsContent

  datatype Secret = Secret(version: string, data: map<Key, Data>)

  /** What becomes of the write of the version file. */
  datatype VersionWrite = Written | Untouched | Cut(length: nat)

  /** Everything one reconcile meets. */
  datatype Env = Env(
    wanted: bool,              // the hypervisor object was read and asks for installation
    announced: bool,           // the "Installing" status was stored
    fate: Path -> Fate,        // the file system; a crash is a failure nobody reports
    reloadOk: bool,            // the reload service started
    reloadReported: bool,      // if not, that was stored
    libvirtdOk: bool,          // and libvirtd could be started instead
    versionWrite: VersionWrite,
    crashes: bool)             // the process dies before the version reaches memory

  /** Disk, memory, and how far the secret has been read. */
  datatype State = State(tree: Tree, versionFile: Option<string>, last: string, alive: bool, seen: int)

  datatype Event = Reconcile(index: nat, env: Env) | Restart(readable: bool)

  // ----- the code -------------------------------------------------------------------

  function AfterWrite(prior: Option<string>, version: string, w: VersionWrite): Option<string> {
    match w
    case Written => Some(version)
    case Untouched => prior
    case Cut(n) => Some(Prefix(version, n))
  }

  class SecretReconciler {
    const store: CertificateStore
    var versionFile: Option<string>
    var lastResourceVersion: string
    var alive: bool
    ghost var seen: int

    ghost function View(): State
      reads this, store
    {
      State(store.tree, versionFile, lastResourceVersion, alive, seen)
    }

    constructor (store: CertificateStore, versionFile: Option<string>)
      ensures this.store == store
      ensures View() == State(store.tree, versionFile, "", false, -1)
    {
      this.store := store;
      this.versionFile := versionFile;
      lastResourceVersion, alive, seen := "", false, -1;
    }

    /** SetupWithManager in a new process: memory starts from the version file, if it can be read. */
    method SetupWithManager(readable: bool)
      modifies this
      ensures Next(old(View()), Restart(readable), Secret("", map[]), View(), false)
    {
      lastResourceVersion := "";
      if readable && versionFile.Some? {
        lastResourceVersion := versionFile.value;
      }
      alive := true;
    }

    /**
     One reconcile of the secret read at position `index` of its history; `ready` tells whether Ready was
     reported.
     */
    method Reconcile(index: nat, secret: Secret, e: Env) returns (ready: bool)
      requires alive
      modifies this, store
      ensures Next(old(View()), Event.Reconcile(index, e), secret, View(), ready)
    {
      seen := index;
      if !e.wanted {
        return false;
      }
      if secret.version == lastResourceVersion {
        return true;
      }
      if !e.announced {
        return false;
      }
      var ok := store.UpdateTLSCertificate(secret.data, e.fate);
      if !ok {
        return false;
      }
      if !e.reloadOk {
        if !e.reloadReported {
          return false;
        }
        if !e.libvirtdOk {
          return false;
        }
      }
      versionFile := AfterWrite(versionFile, secret.version, e.versionWrite);
      if e.crashes {
        alive := false;
        return false;
      }
      lastResourceVersion := secret.version;
      ready := true;
    }
  }

  // ----- what one event does --------------------------------------------------------

  predicate ServicesUp(e: Env) {
    e.reloadOk || (e.reloadReported && e.libvirtdOk)
  }

  /** The reconcile goes past its early returns. */
  predicate Installs(s: State, e: Env, secret: Secret) {
    e.wanted && secret.version != s.last && e.announced
  }

  ghost predicate Next(s: State, event: Event, secret: Secret, s': State, ready: bool) {
    match event
    case Restart(readable) =>
      && !ready
      && s' == s.(last := if readable && s.versionFile.Some? then s.versionFile.value else "", alive := true)
    case Reconcile(index, e) =>
      && s.alive
      && (if !Installs(s, e, secret) then
            s' == s.(seen := index) && (ready <==> e.wanted && secret.version == s.last)
          else s'.seen == index && Attempted(s, secret, e, s', ready))
  }

  /** An attempted installation. */
  ghost predicate Attempted(s: State, secret: Secret, e: Env, s': State, ready: bool) {
    if !Succeeds(s.tree, secret.data, e.fate) then
      Interrupted(s.tree, secret.data, e.fate, s'.tree) && s' == s.(seen := s'.seen, tree := s'.tree) && !ready
    else
      && Completed(s.tree, secret.data, s'.tree)
      && if !ServicesUp(e) then s' == s.(seen := s'.seen, tree := s'.tree) && !ready
         else
           && s'.versionFile == AfterWrite(s.versionFile, secret.version, e.versionWrite)
           && s'.alive == !e.crashes && ready == !e.crashes
           && s'.last == if e.crashes then s.last else secret.version
  }

  // ----- runs -----------------------------------------------------------------------

  /** The successive versions of the secret. */
  type History = seq<Secret>

  /** Versions never recur, and none is the beginning of an earlier one, as for growing numbers. */
  ghost predicate Admissible(history: History) {
    && (forall i | 0 <= i < |history| :: history[i].version != "")
    && (forall i, j | 0 <= i < j < |history| :: !(history[j].version <= history[i].version))
  }

  function Read(history: History, event: Event): Secret {
    if event.Reconcile? && event.index < |history| then history[event.index] else Secret("", map[])
  }

  datatype Moment = Moment(event: Event, ready: bool)

  /** `states` follows the events one after another. */
  ghost predicate Trace(history: History, states: seq<State>, moments: seq<Moment>) {
    && |states| == |moments| + 1
    && (forall k | 0 <= k < |moments| && moments[k].event.Reconcile? :: moments[k].event.index < |history|)
    && forall k | 0 <= k < |moments| ::
      Next(states[k], moments[k].event, Read(history, moments[k].event), states[k + 1], moments[k].ready)
  }

  /** Each reconcile reads a version no older than the last one read, also across restarts. */
  ghost predicate ReadsForward(states: seq<State>, moments: seq<Moment>)
    requires |states| > |moments|
  {
    forall k | 0 <= k < |moments| && moments[k].event.Reconcile? :: moments[k].event.index >= states[k].seen
  }

  ghost predicate Run(history: History, states: seq<State>, moments: seq<Moment>) {
    Trace(history, states, moments) && ReadsForward(states, moments)
  }

  /** No version file, no process, and a disk on which no file is behind a client link yet to be corrected. */
  ghost predicate Initial(s: State) {
    !s.alive && s.versionFile.None? && s.last == "" && s.seen == -1 && Calm(s.tree)
  }

  /** The version file names the newest version read so far. */
  predicate FileIsCurrent(history: History, s: State) {
    s.versionFile.Some? && 0 <= s.seen < |history| && s.versionFile.value == history[s.seen].version
  }

  predicate HasContent(data: map<Key, Data>) {
    exists k :: k in data && data[k] != ""
  }

  /** The version file names the newest version read, and a cut write could damage its files. */
  predicate AtRisk(history: History, s: State) {
    FileIsCurrent(history, s) && HasContent(history[s.seen].data)
  }

  /** No restart fails to read the version file in a state where that matters. */
  ghost predicate NoBlindRestart(history: History, states: seq<State>, moments: seq<Moment>)
    requires |states| > |moments|
  {
    forall k | 0 <= k < |moments| :: moments[k].event == Restart(false) ==> !AtRisk(history, states[k])
  }

  // ----- truthfulness of Ready ------------------------------------------------------

  /** A recorded version is no version still to come, and if it is the newest one read, the files hold it. */
  ghost predicate Trusted(history: History, s: State, version: string) {
    && (forall j: nat | s.seen < j < |history| :: version != history[j].version)
    && (0 <= s.seen < |history| && version == history[s.seen].version ==> InPlace(history[s.seen].data, s.tree))
  }

  ghost predicate Inv(history: History, s: State) {
    && -1 <= s.seen < |history|
    && Calm(s.tree)
    && (s.alive ==> Trusted(history, s, s.last))
    && (s.versionFile.Some? ==> Trusted(history, s, s.versionFile.value))
    // a living process knows the newest version if the file does, unless that version has no content
    && (s.alive && AtRisk(history, s) ==> s.last == s.versionFile.value)
  }

  lemma CutTrusted(history: History, r: nat, n: nat, j: nat)
    requires Admissible(history) && r < |history| && r <= j < |history|
    requires Prefix(history[r].version, n) == history[j].version
    ensures j == r
  {
    assert history[j].version <= history[r].version;
  }

  lemma StepKeepsInv(history: History, s: State, event: Event, s': State, ready: bool)
    requires Admissible(history) && Inv(history, s)
    requires event.Reconcile? ==> s.seen <= event.index < |history|
    requires event == Restart(false) ==> !AtRisk(history, s)
    requires Next(s, event, Read(history, event), s', ready)
    ensures Inv(history, s')
    ensures ready ==> event.Reconcile? && InPlace(history[event.index].data, s'.tree)
  {
    if event.Reconcile? {
      ReconcileKeepsInv(history, s, event.index, event.env, s', ready);
    }
  }

  lemma ReconcileKeepsInv(history: History, s: State, r: nat, e: Env, s': State, ready: bool)
    requires Admissible(history) && Inv(history, s) && s.seen <= r < |history|
    requires Next(s, Reconcile(r, e), history[r], s', ready)
    ensures Inv(history, s')
    ensures ready ==> InPlace(history[r].data, s'.tree)
  {
    var secret := history[r];
    if Installs(s, e, secret) {
      AttemptKeepsFiles(history, s, r, e, s', ready);
      if Succeeds(s.tree, secret.data, e.fate) && ServicesUp(e) {
        if e.versionWrite.Cut? {
          forall j | r <= j < |history| && Prefix(secret.version, e.versionWrite.length) == history[j].version ensures j == r {
            CutTrusted(history, r, e.versionWrite.length, j);
          }
        }
        assert forall j | r < j < |history| :: !(history[j].version <= secret.version);
      }
    }
  }

  /** Memory does not know this version, so the file does not name it either, or nothing of it can be damaged. */
  lemma AttemptKeepsFiles(history: History, s: State, r: nat, e: Env, s': State, ready: bool)
    requires Inv(history, s) && s.alive && s.seen <= r < |history|
    requires Installs(s, e, history[r]) && Attempted(s, history[r], e, s', ready)
    ensures Calm(s'.tree)
    ensures Succeeds(s.tree, history[r].data, e.fate) ==> InPlace(history[r].data, s'.tree)
    ensures s.versionFile == Some(history[r].version) ==> InPlace(history[r].data, s'.tree)
  {
    var data := history[r].data;
    if Succeeds(s.tree, data, e.fate) {
      CompletedInPlace(s.tree, data, s'.tree);
    } else {
      InterruptedKeepsLinks(s.tree, data, e.fate, s'.tree);
      CalmKept(s.tree, s'.tree);
      if s.versionFile == Some(history[r].version) {
        assert r == s.seen && InPlace(data, s.tree) && !HasContent(data);
        EmptyReinstallKeeps(data, s.tree, e.fate, s'.tree);
      }
    }
  }

  lemma {:induction false} InvForever(history: History, states: seq<State>, moments: seq<Moment>, k: nat)
    requires Admissible(history) && Run(history, states, moments)
    requires Inv(history, states[0]) && NoBlindRestart(history, states, moments)
    requires k < |states|
    ensures Inv(history, states[k])
  {
    if k > 0 {
      InvForever(history, states, moments, k - 1);
      StepKeepsInv(history, states[k - 1], moments[k - 1].event, states[k], moments[k - 1].ready);
    }
  }

  /** If Ready was reported at moment `k`, whoever opens a managed path reads the version that was read then. */
  ghost predicate TruthfulAt(history: History, states: seq<State>, moments: seq<Moment>, k: nat)
    requires |states| > |moments| > k
  {
    moments[k].ready ==>
      var event := moments[k].event;
      event.Reconcile? && event.index < |history| && Serves(history[event.index].data, states[k + 1].tree)
  }

  lemma EventKeepsLinks(s: State, event: Event, secret: Secret, s': State, ready: bool)
    requires Next(s, event, secret, s', ready)
    ensures SettledLinksKept(s.tree, s'.tree)
  {
    if event.Reconcile? && Installs(s, event.env, secret) {
      if Succeeds(s.tree, secret.data, event.env.fate) {
        CompletedMeans(s.tree, secret.data, s'.tree);
      } else {
        InterruptedKeepsLinks(s.tree, secret.data, event.env.fate, s'.tree);
      }
    }
  }

  /** On a calm disk every file ends where it ended at first, through everything. */
  lemma {:induction false} EndsForever(history: History, states: seq<State>, moments: seq<Moment>, k: nat)
    requires Trace(history, states, moments) && k < |states| && Calm(states[0].tree)
    ensures Calm(states[k].tree) && SameEnds(states[0].tree, states[k].tree)
  {
    if k > 0 {
      EndsForever(history, states, moments, k - 1);
      var event := moments[k - 1].event;
      EventKeepsLinks(states[k - 1], event, Read(history, event), states[k], moments[k - 1].ready);
      CalmKept(states[k - 1].tree, states[k].tree);
    }
  }

  lemma ReadyInPlace(history: History, states: seq<State>, moments: seq<Moment>, k: nat)
    requires Admissible(history) && Run(history, states, moments)
    requires Inv(history, states[0]) && NoBlindRestart(history, states, moments)
    requires k < |moments| && moments[k].ready
    ensures moments[k].event.Reconcile? && InPlace(history[moments[k].event.index].data, states[k + 1].tree)
    ensures Calm(states[k + 1].tree) && SameEnds(states[0].tree, states[k + 1].tree)
  {
    InvForever(history, states, moments, k);
    StepKeepsInv(history, states[k], moments[k].event, states[k + 1], moments[k].ready);
    EndsForever(history, states, moments, k + 1);
  }

  /**
   Through any sequence of reconciles, failures, half-written files, crashes and restarts, provided no restart
   fails to read a version file that is current: a reported Ready is true exactly if on the first disk files that
   end at one path have the same content in the version read. Without links in place of files that is always so,
   and every managed path then is what it must be.
   */
  lemma ReadyIsTruthful(history: History, states: seq<State>, moments: seq<Moment>, k: nat)
    requires Admissible(history) && Run(history, states, moments)
    requires Initial(states[0]) && NoBlindRestart(history, states, moments)
    requires k < |moments| && moments[k].ready
    ensures moments[k].event.Reconcile?
    ensures var data := history[moments[k].event.index].data;
      && (TruthfulAt(history, states, moments, k) <==> Agree(states[0].tree, data))
      && (NoLinkedTargets(states[0].tree) ==> TruthfulAt(history, states, moments, k) && Installed(data, states[k + 1].tree))
  {
    ReadyIsExact(history, states, moments, k);
    if NoLinkedTargets(states[0].tree) {
      var data := history[moments[k].event.index].data;
      UnlinkedIsCalm(data, states[0].tree);
      UnlinkedForever(states[0].tree, states[k + 1].tree);
      UnlinkedIsCalm(data, states[k + 1].tree);
    }
  }

  lemma UnlinkedForever(before: Tree, tree: Tree)
    requires NoLinkedTargets(before) && SameEnds(before, tree)
    ensures NoLinkedTargets(tree)
  {
    forall p | p in tree && KeyOf(p).Some? ensures tree[p].File? {
      assert !IsLink(before, p);
      assert Destination(tree, p, MAX_HOPS) == Some(p);
    }
  }

  lemma ReadyIsExact(history: History, states: seq<State>, moments: seq<Moment>, k: nat)
    requires Admissible(history) && Run(history, states, moments)
    requires Inv(history, states[0]) && NoBlindRestart(history, states, moments)
    requires k < |moments| && moments[k].ready
    ensures moments[k].event.Reconcile? && InPlace(history[moments[k].event.index].data, states[k + 1].tree)
    ensures SameEnds(states[0].tree, states[k + 1].tree)
    ensures TruthfulAt(history, states, moments, k) <==> Agree(states[0].tree, history[moments[k].event.index].data)
  {
    ReadyInPlace(history, states, moments, k);
    var data, tree := history[moments[k].event.index].data, states[k + 1].tree;
    InPlaceServesExactly(data, tree);
    AgreeKept(states[0].tree, tree, data);
  }

  // ----- what makes a reconcile ready -----------------------------------------------

  /**
   One reconcile, told by what it meets. Not wanted, or not announced, it changes nothing. A known version is ready
   at once. A new one is ready and recorded exactly if the files were written, a service came up and the process
   survived.
   */
  lemma ReconcileExactly(s: State, index: nat, e: Env, secret: Secret, s': State, ready: bool)
    requires Next(s, Event.Reconcile(index, e), secret, s', ready)
    ensures !e.wanted || secret.version == s.last || !e.announced ==>
      s' == s.(seen := index) && (ready <==> e.wanted && secret.version == s.last)
    ensures e.wanted && secret.version != s.last && e.announced ==>
      var installed := Succeeds(s.tree, secret.data, e.fate) && (e.reloadOk || (e.reloadReported && e.libvirtdOk));
      && (ready <==> installed && !e.crashes)
      && (s'.alive <==> !(installed && e.crashes))
      && s'.last == (if ready then secret.version else s.last)
      && (!installed || e.versionWrite == Untouched ==> s'.versionFile == s.versionFile)
      && (installed && e.versionWrite == Written ==> s'.versionFile == Some(secret.version))
      && (installed && e.versionWrite.Cut? && e.versionWrite.length <= |secret.version| ==>
            s'.versionFile == Some(secret.version[..e.versionWrite.length]))
      && (Succeeds(s.tree, secret.data, e.fate) ==> Completed(s.tree, secret.data, s'.tree))
  {
  }

  /** A run in which no reconcile is wanted touches no file, records nothing and reports nothing. */
  lemma {:induction false} UnwantedTouchesNothing(history: History, states: seq<State>, moments: seq<Moment>, k: nat)
    requires Trace(history, states, moments) && k < |states|
    requires forall m | 0 <= m < |moments| && moments[m].event.Reconcile? :: !moments[m].event.env.wanted
    ensures states[k].tree == states[0].tree && states[k].versionFile == states[0].versionFile
    ensures forall m | 0 <= m < k :: !moments[m].ready
  {
    if k > 0 {
      UnwantedTouchesNothing(history, states, moments, k - 1);
      var event := moments[k - 1].event;
      assert Next(states[k - 1], event, Read(history, event), states[k], moments[k - 1].ready);
    }
  }

  /** A recorded version is installed once: through any reconciles and restarts that read the file, nothing is touched. */
  lemma {:induction false} InstalledOnce(history: History, states: seq<State>, moments: seq<Moment>, r: nat, k: nat)
    requires Trace(history, states, moments) && r < |history| && k < |states|
    requires states[0].versionFile == Some(history[r].version)
    requires states[0].alive ==> states[0].last == history[r].version
    requires forall m | 0 <= m < |moments| ::
      moments[m].event != Restart(false) && (moments[m].event.Reconcile? ==> moments[m].event.index == r)
    ensures states[k].tree == states[0].tree && states[k].versionFile == states[0].versionFile
    ensures states[k].alive ==> states[k].last == history[r].version
    ensures forall m | 0 <= m < k && moments[m].event.Reconcile? :: moments[m].ready == moments[m].event.env.wanted
  {
    if k > 0 {
      InstalledOnce(history, states, moments, r, k - 1);
      var event := moments[k - 1].event;
      assert event != Restart(false);
      assert Next(states[k - 1], event, Read(history, event), states[k], moments[k - 1].ready);
    }
  }

  /** After a reconcile that reported Ready, memory knows the version, and so does the file if its write went well. */
  lemma ReadyIsRecorded(history: History, s: State, index: nat, e: Env, s': State, ready: bool)
    requires Inv(history, s) && index < |history|
    requires Next(s, Event.Reconcile(index, e), history[index], s', ready) && ready
    ensures s'.last == history[index].version
    ensures Installs(s, e, history[index]) && e.versionWrite == Written ==> s'.versionFile == Some(history[index].version)
  {
  }

  /**
   From an untouched disk: once an installation was reported and recorded, the files hold its version through
   every later reconcile of it and every restart that reads the file.
   */
  lemma ReadyIsLasting(history: History, states: seq<State>, moments: seq<Moment>, m: nat, k: nat)
    requires Admissible(history) && Run(history, states, moments)
    requires Initial(states[0]) && NoBlindRestart(history, states, moments)
    requires m < k < |states| && moments[m].ready && moments[m].event.Reconcile?
    requires var event := moments[m].event;
      Installs(states[m], event.env, history[event.index]) && event.env.versionWrite == Written
    requires forall j | m < j < |moments| ::
      moments[j].event != Restart(false) && (moments[j].event.Reconcile? ==> moments[j].event.index == moments[m].event.index)
    ensures Serves(history[moments[m].event.index].data, states[k].tree)
      <==> Agree(states[0].tree, history[moments[m].event.index].data)
  {
    var r := moments[m].event.index;
    ReadyIsExact(history, states, moments, m);
    InvForever(history, states, moments, m);
    ReadyIsRecorded(history, states[m], r, moments[m].event.env, states[m + 1], true);
    UntouchedAfter(history, states, moments, m + 1, r, k);
  }

  lemma UntouchedAfter(history: History, states: seq<State>, moments: seq<Moment>, n: nat, r: nat, k: nat)
    requires Trace(history, states, moments) && r < |history| && n <= k < |states|
    requires states[n].versionFile == Some(history[r].version) && states[n].last == history[r].version
    requires forall j | n <= j < |moments| ::
      moments[j].event != Restart(false) && (moments[j].event.Reconcile? ==> moments[j].event.index == r)
    ensures states[k].tree == states[n].tree
  {
    var states', moments' := states[n..], moments[n..];
    assert forall j | 0 <= j < |moments'| :: moments'[j] == moments[n + j];
    TraceSuffix(history, states, moments, n);
    InstalledOnce(history, states', moments', r, k - n);
  }

  lemma TraceSuffix(history: History, states: seq<State>, moments: seq<Moment>, n: nat)
    requires Trace(history, states, moments) && n <= |moments|
    ensures Trace(history, states[n..], moments[n..])
  {
    forall k | 0 <= k < |moments| - n
      ensures var m := moments[n..][k];
        Next(states[n..][k], m.event, Read(history, m.event), states[n..][k + 1], m.ready)
    {
      assert moments[n..][k] == moments[n + k];
      assert states[n..][k] == states[n + k] && states[n..][k + 1] == states[n + k + 1];
    }
  }

  // ----- the proviso is exact -------------------------------------------------------

  /** A reconcile in which everything works but one write, which leaves an empty file. */
  function TornEnv(torn: Path): Env {
    Env(true, true, (p: Path) => if p == torn then WriteFails(Some(0)) else Fine, true, true, true, Written, false)
  }

  /** Installing over a version in place, and failing at the first write of one entry, destroys what is not empty. */
  lemma TornReinstall(placed: map<Key, Data>, tree: Tree, data: map<Key, Data>, key: Key) returns (torn: Tree)
    requires InPlace(placed, tree) && placed[key] != "" && key in data
    ensures var fate := TornEnv(Targets(key)[0]).fate;
      !Succeeds(tree, data, fate) && Interrupted(tree, data, fate, torn)
    ensures !Serves(placed, torn)
  {
    var p := Targets(key)[0];
    TablesAgree(p, key, Cacert);
    assert KeyOf(p) == Some(key) && Filled(placed, tree, p);
    var d := Destination(tree, p, MAX_HOPS).value;
    torn := tree[d := File("")];
    TornWrite(tree, data, p, d, key);
    TornLeads(tree, p, d);
    assert Managed(p) && EntryOf(p) == key;
  }

  lemma TornWrite(tree: Tree, data: map<Key, Data>, p: Path, d: Path, key: Key)
    requires KeyOf(p) == Some(key) && key in data && Destination(tree, p, MAX_HOPS) == Some(d)
    ensures var fate := TornEnv(p).fate;
      !Succeeds(tree, data, fate) && Interrupted(tree, data, fate, tree[d := File("")])
  {
    var fate, torn := TornEnv(p).fate, tree[d := File("")];
    assert !WriteSucceeds(tree, p, fate(p));
    assert AfterFile(tree, p, data[key], fate(p)) == torn;
    assert Progress(tree, data, {}, tree);
    assert TornAt(tree, data, fate, {}, tree, p, torn);
  }

  lemma TornLeads(tree: Tree, p: Path, d: Path)
    requires Destination(tree, p, MAX_HOPS) == Some(d)
    ensures Leads(tree[d := File("")], p) == Some("")
  {
    var torn := tree[d := File("")];
    forall q ensures LinkKept(tree, torn, q) {
    }
    SameLinksSameDestination(tree, torn, p, MAX_HOPS);
  }

  /**
   After a restart that could not read a current version file, a torn installation and one more restart end
   in a false Ready.
   */
  lemma BlindRestartMisleads(history: History, s: State) returns (states: seq<State>, moments: seq<Moment>)
    requires Inv(history, s) && AtRisk(history, s) && history[s.seen].version != ""
    ensures Run(history, states, moments) && states[0] == s
    ensures |moments| == 4 && moments[0].event == Restart(false)
    ensures forall k | 1 <= k < 4 :: moments[k].event != Restart(false)
    ensures !TruthfulAt(history, states, moments, 3)
  {
    var secret := history[s.seen];
    var key :| key in secret.data && secret.data[key] != "";
    CurrentInPlace(history, s);
    states, moments := DamagedRun(history, s, key);
  }

  lemma DamagedRun(history: History, s: State, key: Key) returns (states: seq<State>, moments: seq<Moment>)
    requires FileIsCurrent(history, s) && history[s.seen].version != ""
    requires InPlace(history[s.seen].data, s.tree) && history[s.seen].data[key] != ""
    ensures Run(history, states, moments) && states[0] == s && |moments| == 4
    ensures moments[0].event == Restart(false) && forall k | 1 <= k < 4 :: moments[k].event != Restart(false)
    ensures !TruthfulAt(history, states, moments, 3)
  {
    var data := history[s.seen].data;
    var torn := TornReinstall(data, s.tree, data, key);
    states, moments := MisleadingRun(history, s, TornEnv(Targets(key)[0]), torn);
  }

  lemma CurrentInPlace(history: History, s: State)
    requires Inv(history, s) && FileIsCurrent(history, s)
    ensures InPlace(history[s.seen].data, s.tree)
  {
  }

  lemma MisleadingRun(history: History, s: State, e: Env, torn: Tree) returns (states: seq<State>, moments: seq<Moment>)
    requires FileIsCurrent(history, s) && history[s.seen].version != "" && e.wanted && e.announced
    requires var data := history[s.seen].data;
      !Succeeds(s.tree, data, e.fate) && Interrupted(s.tree, data, e.fate, torn)
    ensures Run(history, states, moments) && states[0] == s && |moments| == 4 && states[4].tree == torn
    ensures moments[0].event == Restart(false) && forall k | 1 <= k < 4 :: moments[k].event != Restart(false)
    ensures moments[3] == Moment(Event.Reconcile(s.seen, e), true)
  {
    var secret := history[s.seen];
    var s1 := s.(last := "", alive := true);
    var s2 := s1.(tree := torn);
    var s3 := s2.(last := secret.version);
    states := [s, s1, s2, s3, s3];
    moments := [
      Moment(Restart(false), false),
      Moment(Event.Reconcile(s.seen, e), false),
      Moment(Restart(true), false),
      Moment(Event.Reconcile(s.seen, e), true)];
    Restarted(s, false);
    TornRetry(s1, s2, s.seen, secret, e);
    Restarted(s2, true);
    ReadyAtOnce(s3, s.seen, secret, e);
    FourSteps(history, states, moments);
  }

  lemma FourSteps(history: History, states: seq<State>, moments: seq<Moment>)
    requires |states| == 5 && |moments| == 4
    requires forall k | 0 <= k < 4 && moments[k].event.Reconcile? :: moments[k].event.index < |history|
    requires Next(states[0], moments[0].event, Read(history, moments[0].event), states[1], moments[0].ready)
    requires Next(states[1], moments[1].event, Read(history, moments[1].event), states[2], moments[1].ready)
    requires Next(states[2], moments[2].event, Read(history, moments[2].event), states[3], moments[2].ready)
    requires Next(states[3], moments[3].event, Read(history, moments[3].event), states[4], moments[3].ready)
    ensures Trace(history, states, moments)
  {
    forall k | 0 <= k < 4
      ensures Next(states[k], moments[k].event, Read(history, moments[k].event), states[k + 1], moments[k].ready)
    {
      assert k == 0 || k == 1 || k == 2 || k == 3;
    }
  }

  lemma Restarted(s: State, readable: bool)
    ensures var last := if readable && s.versionFile.Some? then s.versionFile.value else "";
      Next(s, Restart(readable), Secret("", map[]), s.(last := last, alive := true), false)
  {
  }

  lemma TornRetry(s: State, s': State, index: nat, secret: Secret, e: Env)
    requires s.alive && secret.version != s.last && e.wanted && e.announced
    requires !Succeeds(s.tree, secret.data, e.fate) && Interrupted(s.tree, secret.data, e.fate, s'.tree)
    requires s' == s.(seen := index, tree := s'.tree)
    ensures Next(s, Event.Reconcile(index, e), secret, s', false)
  {
    assert Attempted(s, secret, e, s', false);
  }

  lemma ReadyAtOnce(s: State, index: nat, secret: Secret, e: Env)
    requires s.alive && secret.version == s.last && e.wanted
    ensures Next(s, Event.Reconcile(index, e), secret, s.(seen := index), true)
  {
    assert !Installs(s, e, secret);
  }

  const GOOD_ENV := Env(true, true, AllFine(), true, true, true, Written, false)

  /** From an empty disk: one restart and one undisturbed reconcile leave a current version file and every file right. */
  lemma FirstInstall(history: History, r: nat) returns (states: seq<State>, moments: seq<Moment>)
    requires Admissible(history) && r < |history| && AllKeys(history[r].data)
    ensures Run(history, states, moments) && |moments| == 2
    ensures Initial(states[0]) && states[0].tree == map[] && NoBlindRestart(history, states, moments)
    ensures var v := history[r].version; states[2] == State(states[2].tree, Some(v), v, true, r)
    ensures moments == [Moment(Restart(true), false), Moment(Event.Reconcile(r, GOOD_ENV), true)]
    ensures InPlace(history[r].data, states[2].tree)
  {
    var secret := history[r];
    FreshInstall(secret.data);
    UnlinkedIsCalm(secret.data, map[]);
    CompletedInPlace(map[], secret.data, Fresh(secret.data));
    var s0 := State(map[], None, "", false, -1);
    var s1 := s0.(alive := true);
    var s2 := State(Fresh(secret.data), Some(secret.version), secret.version, true, r);
    states := [s0, s1, s2];
    moments := [Moment(Restart(true), false), Moment(Event.Reconcile(r, GOOD_ENV), true)];
    assert Next(s0, Restart(true), Secret("", map[]), s1, false);
    assert Next(s1, Event.Reconcile(r, GOOD_ENV), secret, s2, true);
  }

  /** A whole history: installed from an empty disk, one restart that cannot read the file, one cut write, a false Ready. */
  lemma FalseReadyHappens(history: History) returns (states: seq<State>, moments: seq<Moment>)
    requires Admissible(history) && history != [] && AllKeys(history[0].data) && HasContent(history[0].data)
    ensures Run(history, states, moments) && Initial(states[0]) && states[0].tree == map[]
    ensures |moments| == 6 && !TruthfulAt(history, states, moments, 5)
  {
    var states1, moments1 := FirstInstall(history, 0);
    InvForever(history, states1, moments1, 2);
    var states2, moments2 := BlindRestartMisleads(history, states1[2]);
    states, moments := states1[..2] + states2, moments1 + moments2;
    forall k | 0 <= k < |moments|
      ensures Next(states[k], moments[k].event, Read(history, moments[k].event), states[k + 1], moments[k].ready)
    {
      if k < 2 {
        assert states[k + 1] == states1[k + 1] && moments[k] == moments1[k];
      } else {
        assert states[k] == states2[k - 2] && states[k + 1] == states2[k - 1] && moments[k] == moments2[k - 2];
      }
    }
  }

  /**
   Reads must not go back: after a newer version was installed, one cut installation of an older one and the next
   read of the newer end in a false Ready.
   */
  lemma StaleReadMisleads(history: History, i: nat, j: nat, key: Key)
    returns (states: seq<State>, moments: seq<Moment>)
    requires Admissible(history) && i < j < |history|
    requires AllKeys(history[j].data) && history[j].data[key] != "" && key in history[i].data
    ensures Trace(history, states, moments) && Initial(states[0])
    ensures NoBlindRestart(history, states, moments)
    ensures |moments| == 4 && !TruthfulAt(history, states, moments, 3)
  {
    var first, begin := FirstInstall(history, j);
    var s := first[2];
    var s3, s4, more := StaleAttempt(history, s, i, j, key);
    TwoMoreSteps(history, first, begin, s3, s4, more);
    states, moments := first + [s3, s4], begin + more;
    assert moments[3] == more[1] && states[4] == s4;
  }

  lemma TwoMoreSteps(
    history: History, states: seq<State>, moments: seq<Moment>, s1: State, s2: State, more: seq<Moment>)
    requires Trace(history, states, moments) && |more| == 2
    requires forall m | m in more :: m.event.Reconcile? && m.event.index < |history|
    requires Next(states[|moments|], more[0].event, Read(history, more[0].event), s1, more[0].ready)
    requires Next(s1, more[1].event, Read(history, more[1].event), s2, more[1].ready)
    ensures Trace(history, states + [s1, s2], moments + more)
  {
    var n := |moments|;
    var states', moments' := states + [s1, s2], moments + more;
    forall k | 0 <= k < n + 2
      ensures Next(states'[k], moments'[k].event, Read(history, moments'[k].event), states'[k + 1], moments'[k].ready)
    {
      if k < n {
        assert moments'[k] == moments[k] && states'[k + 1] == states[k + 1];
      } else {
        assert moments'[k] == more[k - n];
      }
    }
    forall k | 0 <= k < n + 2 && moments'[k].event.Reconcile? ensures moments'[k].event.index < |history| {
      assert k >= n ==> moments'[k] == more[k - n] && more[k - n] in more;
    }
  }

  lemma StaleAttempt(history: History, s: State, i: nat, j: nat, key: Key)
    returns (s1: State, s2: State, more: seq<Moment>)
    requires Admissible(history) && i < j < |history| && s.alive && s.last == history[j].version
    requires InPlace(history[j].data, s.tree) && history[j].data[key] != "" && key in history[i].data
    ensures |more| == 2 && forall m | m in more :: m.event.Reconcile? && m.event.index < |history|
    ensures Next(s, more[0].event, Read(history, more[0].event), s1, more[0].ready)
    ensures Next(s1, more[1].event, Read(history, more[1].event), s2, more[1].ready)
    ensures more[1].ready && more[1].event.index == j && !Serves(history[j].data, s2.tree)
  {
    var torn := TornReinstall(history[j].data, s.tree, history[i].data, key);
    var e := TornEnv(Targets(key)[0]);
    s1 := s.(tree := torn, seen := i);
    s2 := s1.(seen := j);
    more := [Moment(Event.Reconcile(i, e), false), Moment(Event.Reconcile(j, e), true)];
    assert !(history[j].version <= history[i].version);
    TornRetry(s, s1, i, history[i], e);
    ReadyAtOnce(s1, j, history[j], e);
  }

  /** Every run that starts with this restart, and has no blind restart after it, reports Ready truthfully. */
  ghost predicate SafeRestart(history: History, s: State, readable: bool) {
    forall states: seq<State>, moments: seq<Moment>, k: nat |
      && Run(history, states, moments) && states[0] == s
      && k < |moments| && moments[0].event == Restart(readable)
      && NoBlindRestart(history, states[1..], moments[1..])
      :: TruthfulAt(history, states, moments, k)
  }

  /**
   A restart is safe exactly if it reads the version file, or the file is not current, or the current version has
   nothing but empty entries; on a disk where files that end at one path always have the same content.
   */
  lemma RestartSafeExactly(history: History, s: State, readable: bool)
    requires Admissible(history) && Inv(history, s)
    requires forall i | 0 <= i < |history| :: Agree(s.tree, history[i].data)
    ensures SafeRestart(history, s, readable) <==> readable || !AtRisk(history, s)
  {
    if readable || !AtRisk(history, s) {
      forall states: seq<State>, moments: seq<Moment>, k: nat |
        && Run(history, states, moments) && states[0] == s
        && k < |moments| && moments[0].event == Restart(readable)
        && NoBlindRestart(history, states[1..], moments[1..])
        ensures TruthfulAt(history, states, moments, k)
      {
        assert NoBlindRestart(history, states, moments) by {
          forall m | 0 <= m < |moments| && moments[m].event == Restart(false)
            ensures !AtRisk(history, states[m])
          {
            if m > 0 {
              assert moments[1..][m - 1] == moments[m] && states[1..][m - 1] == states[m];
            }
          }
        }
        if moments[k].ready {
          ReadyIsExact(history, states, moments, k);
        }
      }
    } else {
      var states, moments := BlindRestartMisleads(history, s);
      assert NoBlindRestart(history, states[1..], moments[1..]);
    }
  }

  // ----- links in place of files ----------------------------------------------------

  /**
   Without any proviso: as long as files with different content end at one path of a calm disk, no Ready is true.
   */
  lemma SharedNeverTruthful(history: History, states: seq<State>, moments: seq<Moment>, k: nat)
    requires Trace(history, states, moments) && k < |moments| && Calm(states[0].tree)
    requires moments[k].ready && moments[k].event.Reconcile?
    requires !Agree(states[0].tree, history[moments[k].event.index].data)
    ensures !TruthfulAt(history, states, moments, k)
  {
    EndsForever(history, states, moments, k + 1);
    var data, tree := history[moments[k].event.index].data, states[k + 1].tree;
    AgreeKept(states[0].tree, tree, data);
    if Serves(data, tree) {
      ServesAgrees(data, tree);
    }
  }

  /** A new process whose first reconcile is undisturbed reports Ready, on both disks on which an installation goes wrong. */
  method LinkedReady(secret: Secret, detour: bool) returns (ready: bool, tree: Tree)
    requires secret.version != "" && AllKeys(secret.data) && secret.data[CaCrt] != secret.data[TlsCrt]
    ensures ready && !Serves(secret.data, tree)
  {
    var disk := if detour then DETOUR_DISK else SHARED_DISK;
    SharedDiskDisagrees(secret.data);
    DetourSucceeds(secret.data);
    var store := new CertificateStore(disk);
    var reconciler := new SecretReconciler(store, None);
    reconciler.SetupWithManager(true);
    ready := reconciler.Reconcile(0, secret, GOOD_ENV);
    tree := store.tree;
    if detour {
      DetourMisleads(secret.data, tree);
      assert Managed(CA_COPY);
    } else {
      CompletedMeans(disk, secret.data, tree);
      SharedStaysWrong(disk, secret.data, tree);
    }
  }
}
