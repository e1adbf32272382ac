/**
 Installation of the libvirt TLS files (internal/certificates/manage_libvirt.go): nine files copied
 from three secret entries and six client links, any step of which may fail and leave its traces.
 */
module TlsFiles {
  import opened Wrappers
  import opened Sums

  datatype Key = CaCrt | TlsCrt | TlsKey

  type Data = string

  datatype Dir = CA | Libvirt | LibvirtPrivate | Qemu | Ch

  datatype Name =
    | Cacert | CaCert                 // cacert.pem, ca-cert.pem
    | Servercert | ServerCert         // servercert.pem, server-cert.pem
    | Serverkey | ServerKey
    | Clientcert | ClientCert
    | Clientkey | ClientKey

  /** A path among the certificates, or any other place a link can lead to. */
  datatype Path = Path(dir: Dir, name: Name) | Outer(place: string)

  /** A link with the path it names; `bare`: its text is just the name, as this program writes it. */
  datatype Node = File(data: Data) | Link(to: Path, bare: bool)

  type Tree = map<Path, Node>

  // ----- the two tables -------------------------------------------------------------

  function Targets(k: Key): seq<Path> {
    match k
    case CaCrt => [Path(CA, Cacert), Path(Qemu, CaCert), Path(Ch, CaCert)]
    case TlsCrt => [Path(Libvirt, Servercert), Path(Qemu, ServerCert), Path(Ch, ServerCert)]
    case TlsKey => [Path(LibvirtPrivate, Serverkey), Path(Qemu, ServerKey), Path(Ch, ServerKey)]
  }

  const LINK_SOURCES: set<Name> := {Servercert, Serverkey, ServerCert, ServerKey}

  function LinkTargets(source: Name): seq<Path> {
    match source
    case Servercert => [Path(Libvirt, Clientcert)]
    case Serverkey => [Path(LibvirtPrivate, Clientkey)]
    case ServerCert => [Path(Qemu, ClientCert), Path(Ch, ClientCert)]
    case ServerKey => [Path(Qemu, ClientKey), Path(Ch, ClientKey)]
    case _ => []
  }

  // ----- the tables read the other way ----------------------------------------------

  /** The secret entry a path is a copy of. */
  function KeyOf(p: Path): Option<Key> {
    if p.Outer? then None
    else
      match p.name
      case Cacert => if p.dir == CA then Some(CaCrt) else None
      case CaCert => if p.dir == Qemu || p.dir == Ch then Some(CaCrt) else None
      case Servercert => if p.dir == Libvirt then Some(TlsCrt) else None
      case ServerCert => if p.dir == Qemu || p.dir == Ch then Some(TlsCrt) else None
      case Serverkey => if p.dir == LibvirtPrivate then Some(TlsKey) else None
      case ServerKey => if p.dir == Qemu || p.dir == Ch then Some(TlsKey) else None
      case _ => None
  }

  /** The server file a client link must name. */
  function ServerOf(p: Path): Option<Name> {
    if p.Outer? then None
    else
      match p.name
      case Clientcert => if p.dir == Libvirt then Some(Servercert) else None
      case Clientkey => if p.dir == LibvirtPrivate then Some(Serverkey) else None
      case ClientCert => if p.dir == Qemu || p.dir == Ch then Some(ServerCert) else None
      case ClientKey => if p.dir == Qemu || p.dir == Ch then Some(ServerKey) else None
      case _ => None
  }

  lemma TablesAgree(p: Path, k: Key, source: Name)
    ensures p in Targets(k) <==> KeyOf(p) == Some(k)
    ensures p in LinkTargets(source) <==> ServerOf(p) == Some(source)
    ensures ServerOf(p).Some? ==> ServerOf(p).value in LINK_SOURCES && KeyOf(p).None?
  {
  }

  /** The nine files and six links by name, and no other. */
  lemma ManagedByName(p: Path)
    ensures KeyOf(p) == Some(CaCrt) <==> p in {Path(CA, Cacert), Path(Qemu, CaCert), Path(Ch, CaCert)}
    ensures KeyOf(p) == Some(TlsCrt) <==> p in {Path(Libvirt, Servercert), Path(Qemu, ServerCert), Path(Ch, ServerCert)}
    ensures KeyOf(p) == Some(TlsKey) <==> p in {Path(LibvirtPrivate, Serverkey), Path(Qemu, ServerKey), Path(Ch, ServerKey)}
    ensures ServerOf(p) == Some(Servercert) <==> p == Path(Libvirt, Clientcert)
    ensures ServerOf(p) == Some(Serverkey) <==> p == Path(LibvirtPrivate, Clientkey)
    ensures ServerOf(p) == Some(ServerCert) <==> p in {Path(Qemu, ClientCert), Path(Ch, ClientCert)}
    ensures ServerOf(p) == Some(ServerKey) <==> p in {Path(Qemu, ClientKey), Path(Ch, ClientKey)}
    ensures ServerOf(p).Some? ==> ServerOf(p).value in {Servercert, Serverkey, ServerCert, ServerKey}
  {
  }

  predicate Managed(p: Path) {
    KeyOf(p).Some? || ServerOf(p).Some?
  }

  /** The link a client path must be: it names the server file of its own directory. */
  function RightLink(p: Path): Node
    requires ServerOf(p).Some?
  {
    Link(Path(p.dir, ServerOf(p).value), true)
  }

  // ----- what an installation makes of a tree ---------------------------------------

  /** What a managed path must hold. */
  function Proper(data: map<Key, Data>, p: Path): Node
    requires Managed(p) && (KeyOf(p).Some? ==> KeyOf(p).value in data)
  {
    if KeyOf(p).Some? then File(data[KeyOf(p).value]) else RightLink(p)
  }

  predicate AllKeys(data: map<Key, Data>) {
    CaCrt in data && TlsCrt in data && TlsKey in data
  }

  /** Every managed path holds what it must. */
  ghost predicate Installed(data: map<Key, Data>, tree: Tree) {
    AllKeys(data) && forall p: Path | Managed(p) :: p in tree && tree[p] == Proper(data, p)
  }

  /** The whole effect of a successful installation: everything managed is right, everything else is as before. */
  ghost predicate Replaced(before: Tree, data: map<Key, Data>, tree: Tree) {
    && Installed(data, tree)
    && forall p: Path | !Managed(p) :: (p in tree <==> p in before) && (p in tree ==> tree[p] == before[p])
  }

  /** No file target is a symbolic link, so writing it writes no other path. */
  predicate NoLinkedTargets(tree: Tree) {
    forall p | p in tree && KeyOf(p).Some? :: tree[p].File?
  }

  // ----- writing through links ------------------------------------------------------

  predicate IsLink(tree: Tree, p: Path) {
    p in tree && tree[p].Link?
  }

  const MAX_HOPS: nat := 40

  /** Where opening a path ends: at the first path that is no link; None if there are too many links on the way. */
  function Destination(tree: Tree, p: Path, hops: nat): (end: Option<Path>)
    ensures end.Some? ==> !IsLink(tree, end.value)
    ensures !IsLink(tree, p) ==> end == Some(p)
    decreases hops
  {
    if !IsLink(tree, p) then Some(p)
    else if hops == 0 then None
    else Destination(tree, tree[p].to, hops - 1)
  }

  function Put(tree: Tree, end: Option<Path>, data: Data): Tree {
    if end.Some? then tree[end.value := File(data)] else tree
  }

  // ----- how a call can fail --------------------------------------------------------

  /** What the file system does to the operations on one path during a call. */
  datatype Fate =
    | Fine
    | MkdirFails
    | WriteFails(kept: Option<nat>)   // how much of the data the file then holds, if it was opened at all
    | StatFails
    | ReadlinkFails
    | RemoveFails
    | SymlinkFails

  function Prefix(s: string, n: nat): string {
    if n <= |s| then s[..n] else s
  }

  predicate WriteSucceeds(tree: Tree, p: Path, f: Fate) {
    f != MkdirFails && !f.WriteFails? && Destination(tree, p, MAX_HOPS).Some?
  }

  /** The tree after an attempt to write a file target: a failed write leaves a beginning of the data. */
  function AfterFile(tree: Tree, p: Path, data: Data, f: Fate): Tree {
    if f == MkdirFails || f == WriteFails(None) then tree
    else Put(tree, Destination(tree, p, MAX_HOPS), if f.WriteFails? then Prefix(data, f.kept.value) else data)
  }

  predicate IsRight(tree: Tree, p: Path) {
    ServerOf(p).Some? && p in tree && tree[p] == RightLink(p)
  }

  /** An absent link is made, a right one kept, a wrong one replaced; a regular file in its place is an error. */
  predicate LinkSucceeds(tree: Tree, p: Path, f: Fate) {
    && f != MkdirFails && f != StatFails
    && (p in tree ==> tree[p].Link? && f != ReadlinkFails)
    && (p in tree && !IsRight(tree, p) ==> f != RemoveFails)
    && (!IsRight(tree, p) ==> f != SymlinkFails)
  }

  /** The tree after an attempt to make a client link: only a wrong link can get lost. */
  function AfterLink(tree: Tree, p: Path, f: Fate): Tree
    requires ServerOf(p).Some?
  {
    if LinkSucceeds(tree, p, f) then tree[p := RightLink(p)]
    else if f == SymlinkFails && IsLink(tree, p) then tree - {p}
    else tree
  }

  // ----- how far an installation has come -------------------------------------------

  /** The path that handling `p` changes: a link itself, for a file the end of the links in its place. */
  function Spot(before: Tree, p: Path): Option<Path> {
    if ServerOf(p).Some? then Some(p) else Destination(before, p, MAX_HOPS)
  }

  ghost predicate Reached(before: Tree, done: set<Path>, d: Path) {
    exists p :: p in done && Spot(before, p) == Some(d)
  }

  predicate Placeable(data: map<Key, Data>, p: Path) {
    Managed(p) && (KeyOf(p).Some? ==> KeyOf(p).value in data)
  }

  predicate Same(before: Tree, tree: Tree, d: Path) {
    (d in tree <==> d in before) && (d in tree ==> tree[d] == before[d])
  }

  /** `tree` has at `d` what managed path `p` must hold. */
  predicate Holds(data: map<Key, Data>, p: Path, tree: Tree, d: Path) {
    Placeable(data, p) && d in tree && tree[d] == Proper(data, p)
  }

  /**
   The managed paths of `done` have been handled: every path that one of them leads to holds what one of them
   must hold, and every other path is as it was in `before`.
   */
  ghost predicate Progress(before: Tree, data: map<Key, Data>, done: set<Path>, tree: Tree) {
    && (forall p | p in done :: Placeable(data, p))
    && (forall d: Path | !Reached(before, done, d) :: Same(before, tree, d))
    && (forall d: Path | Reached(before, done, d) ::
          exists p :: p in done && Spot(before, p) == Some(d) && Holds(data, p, tree, d))
  }

  predicate FilesOnly(done: set<Path>) {
    forall p | p in done :: KeyOf(p).Some?
  }

  ghost predicate AllFiles(done: set<Path>) {
    forall p: Path | KeyOf(p).Some? :: p in done
  }

  ghost predicate AllManaged(done: set<Path>) {
    forall p: Path | Managed(p) :: p in done
  }

  /** Everything was handled. */
  ghost predicate Completed(before: Tree, data: map<Key, Data>, tree: Tree) {
    exists done: set<Path> :: Progress(before, data, done, tree) && AllManaged(done)
  }

  /** The step for `p` fails in `mid` and leaves `tree`. */
  predicate FailsAt(mid: Tree, data: map<Key, Data>, p: Path, f: Fate, tree: Tree) {
    if KeyOf(p).Some? then
      if KeyOf(p).value !in data then tree == mid
      else !WriteSucceeds(mid, p, f) && tree == AfterFile(mid, p, data[KeyOf(p).value], f)
    else ServerOf(p).Some? && !LinkSucceeds(mid, p, f) && tree == AfterLink(mid, p, f)
  }

  /** The paths of `done` were handled, files before links, then the step for `torn` failed. */
  ghost predicate TornAt(
    before: Tree, data: map<Key, Data>, fate: Path -> Fate, done: set<Path>, mid: Tree, torn: Path, tree: Tree)
  {
    && Progress(before, data, done, mid)
    && torn !in done
    && (if KeyOf(torn).Some? then FilesOnly(done) else AllFiles(done))
    && FailsAt(mid, data, torn, fate(torn), tree)
  }

  /** What a failed or interrupted installation can leave. */
  ghost predicate Interrupted(before: Tree, data: map<Key, Data>, fate: Path -> Fate, tree: Tree) {
    exists done: set<Path>, mid: Tree, torn: Path :: TornAt(before, data, fate, done, mid, torn, tree)
  }

  /** A file target leads to client path `p`, so that a regular file will be in the way of the link. */
  ghost predicate Overwritten(before: Tree, p: Path) {
    exists q: Path :: KeyOf(q).Some? && Spot(before, q) == Some(p)
  }

  /** The calls that succeed. */
  ghost predicate Succeeds(before: Tree, data: map<Key, Data>, fate: Path -> Fate) {
    && AllKeys(data)
    && (forall p: Path | KeyOf(p).Some? :: WriteSucceeds(before, p, fate(p)))
    && (forall p: Path | ServerOf(p).Some? :: LinkSucceeds(before, p, fate(p)) && !Overwritten(before, p))
  }

  /** The calls that succeed, spelled out. */
  lemma SuccessExactly(before: Tree, data: map<Key, Data>, fate: Path -> Fate)
    ensures Succeeds(before, data, fate) <==>
      && CaCrt in data && TlsCrt in data && TlsKey in data
      && (forall p: Path | KeyOf(p).Some? ::
            Destination(before, p, MAX_HOPS).Some? && fate(p) != MkdirFails && !fate(p).WriteFails?)
      && (forall p: Path | ServerOf(p).Some? ::
            && fate(p) != MkdirFails && fate(p) != StatFails
            && (p in before ==> before[p].Link? && fate(p) != ReadlinkFails)
            && (p in before && before[p] != Link(Path(p.dir, ServerOf(p).value), true) ==>
                  fate(p) != RemoveFails && fate(p) != SymlinkFails)
            && (p !in before ==> fate(p) != SymlinkFails))
      && (forall p: Path, q: Path | ServerOf(p).Some? && KeyOf(q).Some? ::
            Destination(before, q, MAX_HOPS) != Some(p))
  {
    forall p: Path, q: Path | ServerOf(p).Some? && KeyOf(q).Some?
      ensures Spot(before, q) == Destination(before, q, MAX_HOPS)
    {
      TablesAgree(q, CaCrt, Cacert);
    }
    if Succeeds(before, data, fate) {
      forall p: Path, q: Path | ServerOf(p).Some? && KeyOf(q).Some? ensures Destination(before, q, MAX_HOPS) != Some(p) {
        assert !Overwritten(before, p);
      }
    }
  }

  // ----- single steps ---------------------------------------------------------------

  predicate LinkKept(before: Tree, tree: Tree, x: Path) {
    IsLink(before, x) == IsLink(tree, x) && (IsLink(before, x) ==> tree[x] == before[x])
  }

  lemma {:induction false} SameLinksSameDestination(before: Tree, mid: Tree, p: Path, hops: nat)
    requires forall q :: LinkKept(before, mid, q)
    ensures Destination(mid, p, hops) == Destination(before, p, hops)
    decreases hops
  {
    assert LinkKept(before, mid, p);
    if IsLink(before, p) && hops > 0 {
      SameLinksSameDestination(before, mid, before[p].to, hops - 1);
    }
  }

  /** Writing files moves no link, so every write still ends where it would have ended at first. */
  lemma FilesKeepDestinations(before: Tree, data: map<Key, Data>, done: set<Path>, mid: Tree, p: Path)
    requires Progress(before, data, done, mid) && FilesOnly(done)
    ensures Destination(mid, p, MAX_HOPS) == Destination(before, p, MAX_HOPS)
  {
    forall q ensures LinkKept(before, mid, q) {
      if Reached(before, done, q) {
        var w :| w in done && Spot(before, w) == Some(q) && Holds(data, w, mid, q);
        assert !IsLink(before, q);
      } else {
        assert Same(before, mid, q);
      }
    }
    SameLinksSameDestination(before, mid, p, MAX_HOPS);
  }

  /** One more path is handled if what it leads to now holds what it must. */
  lemma OneMore(before: Tree, data: map<Key, Data>, done: set<Path>, mid: Tree, p: Path, tree: Tree)
    requires Progress(before, data, done, mid) && Placeable(data, p)
    requires tree == if Spot(before, p).Some? then mid[Spot(before, p).value := Proper(data, p)] else mid
    ensures Progress(before, data, done + {p}, tree)
  {
    var done' := done + {p};
    forall d: Path | Reached(before, done', d)
      ensures exists q :: q in done' && Spot(before, q) == Some(d) && Holds(data, q, tree, d)
    {
      if Spot(before, p) == Some(d) {
        assert p in done' && Holds(data, p, tree, d);
      } else {
        var q :| q in done' && Spot(before, q) == Some(d);
        assert q in done && Reached(before, done, d);
        var w :| w in done && Spot(before, w) == Some(d) && Holds(data, w, mid, d);
        assert w in done' && Holds(data, w, tree, d);
      }
    }
    forall d: Path | !Reached(before, done', d) ensures Same(before, tree, d) {
      assert p in done' && Spot(before, p) != Some(d);
      forall q | q in done ensures Spot(before, q) != Some(d) {
        assert q in done';
      }
      assert Same(before, mid, d);
    }
  }

  lemma FileStep(before: Tree, data: map<Key, Data>, done: set<Path>, mid: Tree, p: Path, f: Fate)
    requires Progress(before, data, done, mid) && FilesOnly(done)
    requires KeyOf(p).Some? && KeyOf(p).value in data
    ensures WriteSucceeds(mid, p, f) <==> WriteSucceeds(before, p, f)
    ensures WriteSucceeds(mid, p, f) ==>
      Progress(before, data, done + {p}, AfterFile(mid, p, data[KeyOf(p).value], f))
  {
    FilesKeepDestinations(before, data, done, mid, p);
    if WriteSucceeds(mid, p, f) {
      OneMore(before, data, done, mid, p, AfterFile(mid, p, data[KeyOf(p).value], f));
    }
  }

  lemma LinkStep(before: Tree, data: map<Key, Data>, done: set<Path>, mid: Tree, p: Path, f: Fate)
    requires Progress(before, data, done, mid) && AllFiles(done)
    requires ServerOf(p).Some? && KeyOf(p).None? && p !in done
    ensures LinkSucceeds(mid, p, f) <==> LinkSucceeds(before, p, f) && !Overwritten(before, p)
    ensures LinkSucceeds(mid, p, f) ==> Progress(before, data, done + {p}, AfterLink(mid, p, f))
  {
    if Overwritten(before, p) {
      var q: Path :| KeyOf(q).Some? && Spot(before, q) == Some(p);
      assert q in done && Reached(before, done, p);
      var w :| w in done && Spot(before, w) == Some(p) && Holds(data, w, mid, p);
      assert mid[p].File?;
    } else {
      forall w | w in done ensures Spot(before, w) != Some(p) {
        assert Placeable(data, w);
      }
      assert Same(before, mid, p);
    }
    if LinkSucceeds(mid, p, f) {
      OneMore(before, data, done, mid, p, AfterLink(mid, p, f));
    }
  }

  // ----- the code -------------------------------------------------------------------

  class CertificateStore {
    var tree: Tree

    constructor (tree: Tree)
      ensures this.tree == tree
    {
      this.tree := tree;
    }

    /** Writes one file target, through any links in its place. */
    method WriteTarget(p: Path, data: Data, f: Fate) returns (ok: bool)
      requires KeyOf(p).Some?
      modifies this
      ensures ok <==> WriteSucceeds(old(tree), p, f)
      ensures tree == AfterFile(old(tree), p, data, f)
      ensures var end := Destination(old(tree), p, MAX_HOPS);
        && (ok <==> end.Some? && f != MkdirFails && !f.WriteFails?)
        && (ok ==> tree == old(tree)[end.value := File(data)])
        && (end.None? || f == MkdirFails || f == WriteFails(None) ==> tree == old(tree))
        && (end.Some? && f.WriteFails? && f.kept.Some? && f.kept.value <= |data| ==>
              tree == old(tree)[end.value := File(data[..f.kept.value])])
      ensures forall q | IsLink(old(tree), q) :: Same(old(tree), tree, q)
    {
      if f == MkdirFails {
        return false;
      }
      var end := Destination(tree, p, MAX_HOPS);
      if end.None? {
        return false;
      }
      if f.WriteFails? {
        if f.kept.Some? {
          tree := tree[end.value := File(Prefix(data, f.kept.value))];
        }
        return false;
      }
      tree := tree[end.value := File(data)];
      ok := true;
    }

    /** Makes or corrects one client link. */
    method LinkTarget(p: Path, source: Name, f: Fate) returns (ok: bool)
      requires ServerOf(p) == Some(source)
      modifies this
      ensures ok <==> LinkSucceeds(old(tree), p, f)
      ensures ok ==> IsRight(tree, p)
      ensures tree == AfterLink(old(tree), p, f)
      ensures var right := Link(Path(p.dir, source), true);
        && (ok <==>
              && f != MkdirFails && f != StatFails
              && (p in old(tree) ==> old(tree)[p].Link? && f != ReadlinkFails)
              && (p in old(tree) && old(tree)[p] != right ==> f != RemoveFails && f != SymlinkFails)
              && (p !in old(tree) ==> f != SymlinkFails))
        && (ok ==> tree == old(tree)[p := right])
        && (!ok ==> tree == if IsLink(old(tree), p) && f == SymlinkFails then old(tree) - {p} else old(tree))
    {
      if f == MkdirFails {
        return false;
      }
      if f == StatFails {
        return false;
      }
      if p in tree {
        if tree[p].Link? {
          if f == ReadlinkFails {
            return false;
          }
          if tree[p] == Link(Path(p.dir, source), true) {
            assert tree == tree[p := RightLink(p)];
            return true;
          }
          if f == RemoveFails {
            return false;
          }
          tree := tree - {p};
        }
      }
      if p in tree || f == SymlinkFails {
        return false;
      }
      tree := tree[p := Link(Path(p.dir, source), true)];
      ok := true;
    }

    /** Writes the targets of one secret entry, in order. */
    method WriteTargets(
      targets: seq<Path>, key: Key, data: map<Key, Data>, fate: Path -> Fate, ghost before: Tree, ghost done: set<Path>)
      returns (ok: bool)
      requires targets != [] && NoDuplicates(targets)
      requires forall p | p in targets :: KeyOf(p) == Some(key) && p !in done
      requires Progress(before, data, done, tree) && FilesOnly(done)
      modifies this
      ensures ok <==> key in data && forall p | p in targets :: WriteSucceeds(before, p, fate(p))
      ensures ok ==> Progress(before, data, done + (set p | p in targets), tree)
      ensures !ok ==> Interrupted(before, data, fate, tree)
    {
      ghost var now := done;
      for i := 0 to |targets|
        invariant i > 0 ==> key in data
        invariant Progress(before, data, now, tree) && FilesOnly(now)
        invariant forall p :: p in now <==> p in done || p in targets[..i]
        invariant forall k | 0 <= k < i :: WriteSucceeds(before, targets[k], fate(targets[k]))
      {
        var p := targets[i];
        assert p in targets && p !in now;
        ghost var mid := tree;
        if key !in data {
          assert TornAt(before, data, fate, now, mid, p, tree);
          return false;
        }
        FileStep(before, data, now, mid, p, fate(p));
        ok := WriteTarget(p, data[key], fate(p));
        if !ok {
          assert TornAt(before, data, fate, now, mid, p, tree);
          return;
        }
        now := now + {p};
      }
      assert now == done + (set p | p in targets);
      ok := true;
    }

    /** Makes the client links that name one server file, in order. */
    method LinkTargetsOf(
      targets: seq<Path>, source: Name, data: map<Key, Data>, fate: Path -> Fate,
      ghost before: Tree, ghost done: set<Path>)
      returns (ok: bool)
      requires NoDuplicates(targets)
      requires forall p | p in targets :: ServerOf(p) == Some(source) && KeyOf(p).None? && p !in done
      requires Progress(before, data, done, tree) && AllFiles(done)
      modifies this
      ensures ok <==> forall p | p in targets :: LinkSucceeds(before, p, fate(p)) && !Overwritten(before, p)
      ensures ok ==> Progress(before, data, done + (set p | p in targets), tree)
      ensures !ok ==> Interrupted(before, data, fate, tree)
    {
      ghost var now := done;
      for i := 0 to |targets|
        invariant Progress(before, data, now, tree) && AllFiles(now)
        invariant forall p :: p in now <==> p in done || p in targets[..i]
        invariant forall k | 0 <= k < i ::
          LinkSucceeds(before, targets[k], fate(targets[k])) && !Overwritten(before, targets[k])
      {
        var p := targets[i];
        assert p in targets && p !in now;
        ghost var mid := tree;
        LinkStep(before, data, now, mid, p, fate(p));
        ok := LinkTarget(p, source, fate(p));
        if !ok {
          assert TornAt(before, data, fate, now, mid, p, tree);
          return;
        }
        now := now + {p};
      }
      assert now == done + (set p | p in targets);
      ok := true;
    }

    /**
     UpdateTLSCertificate, with both tables ranged over in any order: when it succeeds, and what it leaves
     either way. What the paths then lead to is the subject of TlsContent.
     */
    method UpdateTLSCertificate(data: map<Key, Data>, fate: Path -> Fate) returns (ok: bool)
      modifies this
      ensures ok <==> Succeeds(old(tree), data, fate)
      ensures ok ==> Completed(old(tree), data, tree)
      ensures !ok ==> Interrupted(old(tree), data, fate, tree)
      ensures SettledLinksKept(old(tree), tree)
      ensures ok && NoLinkedTargets(old(tree)) ==> Replaced(old(tree), data, tree)
    {
      ghost var before, done := tree, {};
      var keys := {CaCrt, TlsCrt, TlsKey};
      assert forall k: Key :: k in keys by {
        forall k: Key ensures k in keys {
          match k case CaCrt => case TlsCrt => case TlsKey =>
        }
      }
      while keys != {}
        invariant Progress(before, data, done, tree)
        invariant forall p :: p in done <==> KeyOf(p).Some? && KeyOf(p).value !in keys
        invariant forall k: Key | k !in keys :: k in data
        invariant forall p | p in done :: WriteSucceeds(before, p, fate(p))
        decreases |keys|
      {
        var key :| key in keys;
        TargetsOfKey(key);
        ok := WriteTargets(Targets(key), key, data, fate, before, done);
        if !ok {
          InterruptedKeepsLinks(before, data, fate, tree);
          return;
        }
        done := done + (set p | p in Targets(key));
        keys := keys - {key};
      }
      var sources := LINK_SOURCES;
      TargetsOfSource(Servercert);
      while sources != {}
        invariant sources <= LINK_SOURCES
        invariant Progress(before, data, done, tree)
        invariant forall p :: p in done <==> KeyOf(p).Some? || (ServerOf(p).Some? && ServerOf(p).value !in sources)
        invariant forall p | p in done && ServerOf(p).Some? :: LinkSucceeds(before, p, fate(p)) && !Overwritten(before, p)
        decreases |sources|
      {
        var source :| source in sources;
        TargetsOfSource(source);
        ok := LinkTargetsOf(LinkTargets(source), source, data, fate, before, done);
        if !ok {
          InterruptedKeepsLinks(before, data, fate, tree);
          return;
        }
        done := done + (set p | p in LinkTargets(source));
        sources := sources - {source};
      }
      assert AllManaged(done);
      CompletedMeans(before, data, tree);
      ok := true;
    }
  }

  lemma TargetsOfKey(k: Key)
    ensures Targets(k) != [] && NoDuplicates(Targets(k))
    ensures forall p :: p in Targets(k) <==> KeyOf(p) == Some(k)
  {
    forall p ensures p in Targets(k) <==> KeyOf(p) == Some(k) {
      TablesAgree(p, k, Cacert);
    }
  }

  lemma TargetsOfSource(source: Name)
    ensures NoDuplicates(LinkTargets(source))
    ensures forall p :: p in LinkTargets(source) <==> ServerOf(p) == Some(source)
    ensures forall p | ServerOf(p).Some? :: KeyOf(p).None? && ServerOf(p).value in LINK_SOURCES
  {
    forall p ensures p in LinkTargets(source) <==> ServerOf(p) == Some(source) {
      TablesAgree(p, CaCrt, source);
    }
  }

  // ----- links in place of files ----------------------------------------------------

  /** No installation changes what this path is: it is no client path, or it is the right link already. */
  predicate Settled(tree: Tree, x: Path) {
    ServerOf(x).Some? ==> IsRight(tree, x)
  }

  /** At settled paths links are neither made, nor changed, nor removed. */
  ghost predicate SettledLinksKept(before: Tree, tree: Tree) {
    forall x: Path | Settled(before, x) :: LinkKept(before, tree, x)
  }

  lemma ProgressKeepsLinks(before: Tree, data: map<Key, Data>, done: set<Path>, tree: Tree)
    requires Progress(before, data, done, tree)
    ensures SettledLinksKept(before, tree)
  {
    forall x: Path | Settled(before, x) ensures LinkKept(before, tree, x) {
      if Reached(before, done, x) {
        var w :| w in done && Spot(before, w) == Some(x) && Holds(data, w, tree, x);
        TablesAgree(x, CaCrt, Cacert);
        assert ServerOf(x).Some? ==> w == x;
      } else {
        assert Same(before, tree, x);
      }
    }
  }

  lemma FailureKeepsLinks(mid: Tree, data: map<Key, Data>, p: Path, f: Fate, tree: Tree)
    requires FailsAt(mid, data, p, f, tree)
    ensures SettledLinksKept(mid, tree)
  {
  }

  lemma InterruptedKeepsLinks(before: Tree, data: map<Key, Data>, fate: Path -> Fate, tree: Tree)
    requires Interrupted(before, data, fate, tree)
    ensures SettledLinksKept(before, tree)
  {
    var done, mid, torn :| TornAt(before, data, fate, done, mid, torn, tree);
    ProgressKeepsLinks(before, data, done, mid);
    FailureKeepsLinks(mid, data, torn, fate(torn), tree);
    forall x: Path | Settled(before, x) ensures LinkKept(before, tree, x) {
      assert LinkKept(before, mid, x);
      assert Settled(mid, x) && LinkKept(mid, tree, x);
    }
  }

  lemma UnlinkedSpot(before: Tree, p: Path)
    requires NoLinkedTargets(before) && Managed(p)
    ensures Spot(before, p) == Some(p)
  {
    if KeyOf(p).Some? {
      assert !IsLink(before, p);
    }
  }

  /** Without links in place of files, the handled paths are right and all others are untouched. */
  lemma UnlinkedProgress(before: Tree, data: map<Key, Data>, done: set<Path>, tree: Tree, d: Path)
    requires NoLinkedTargets(before) && Progress(before, data, done, tree)
    ensures if d in done then Holds(data, d, tree, d) else Same(before, tree, d)
  {
    if d in done {
      UnlinkedSpot(before, d);
      assert Reached(before, done, d);
    }
    if Reached(before, done, d) {
      var w :| w in done && Spot(before, w) == Some(d) && Holds(data, w, tree, d);
      UnlinkedSpot(before, w);
    }
  }

  /** On a disk without links in place of files a completed installation is one, and its tree is fixed. */
  lemma CompletedMeans(before: Tree, data: map<Key, Data>, tree: Tree)
    requires AllKeys(data) && Completed(before, data, tree)
    ensures SettledLinksKept(before, tree)
    ensures NoLinkedTargets(before) ==> Replaced(before, data, tree)
  {
    var done: set<Path> :| Progress(before, data, done, tree) && AllManaged(done);
    ProgressKeepsLinks(before, data, done, tree);
    if NoLinkedTargets(before) {
      forall p: Path ensures if Managed(p) then Holds(data, p, tree, p) else Same(before, tree, p) {
        assert p in done <==> Managed(p);
        UnlinkedProgress(before, data, done, tree, p);
      }
    }
  }

  lemma InstalledIsUnlinked(data: map<Key, Data>, tree: Tree)
    requires Installed(data, tree)
    ensures NoLinkedTargets(tree)
  {
    forall p | p in tree && KeyOf(p).Some? ensures tree[p].File? {
      assert Managed(p) && tree[p] == Proper(data, p);
    }
  }

  // ----- what a successful installation is worth ------------------------------------

  /**
   One tree, whatever the order of the tables and whatever an earlier, even interrupted, installation left
   at managed paths.
   */
  lemma ReplacedUnique(before1: Tree, before2: Tree, data: map<Key, Data>, tree1: Tree, tree2: Tree)
    requires Replaced(before1, data, tree1) && Replaced(before2, data, tree2)
    requires forall p: Path | !Managed(p) :: (p in before1 <==> p in before2) && (p in before1 ==> before1[p] == before2[p])
    ensures tree1 == tree2
  {
    forall p: Path ensures (p in tree1 <==> p in tree2) && (p in tree1 ==> tree1[p] == tree2[p]) {
      if Managed(p) {
        assert tree1[p] == Proper(data, p) == tree2[p];
      }
    }
    assert tree1.Keys == tree2.Keys;
  }

  const MANAGED: set<Path> :=
    set p | p in Targets(CaCrt) + Targets(TlsCrt) + Targets(TlsKey)
      + LinkTargets(Servercert) + LinkTargets(Serverkey) + LinkTargets(ServerCert) + LinkTargets(ServerKey)

  lemma ManagedPaths()
    ensures forall p :: p in MANAGED <==> Managed(p)
  {
    forall p ensures p in MANAGED <==> Managed(p) {
      TablesAgree(p, CaCrt, Servercert);
      TablesAgree(p, TlsCrt, Serverkey);
      TablesAgree(p, TlsKey, ServerCert);
      TablesAgree(p, TlsKey, ServerKey);
      assert KeyOf(p) in {None, Some(CaCrt), Some(TlsCrt), Some(TlsKey)};
    }
  }

  function Fresh(data: map<Key, Data>): Tree
    requires AllKeys(data)
  {
    map p | p in MANAGED && Placeable(data, p) :: Proper(data, p)
  }

  /** On an empty disk an undisturbed installation makes exactly the managed paths. */
  lemma FreshInstall(data: map<Key, Data>)
    requires AllKeys(data)
    ensures Succeeds(map[], data, AllFine()) && Completed(map[], data, Fresh(data))
  {
    ManagedPaths();
    forall p | Managed(p) ensures Spot(map[], p) == Some(p) {
    }
    forall d | Reached(map[], MANAGED, d)
      ensures exists p :: p in MANAGED && Spot(map[], p) == Some(d) && Holds(data, p, Fresh(data), d)
    {
      assert d in MANAGED && Spot(map[], d) == Some(d) && Holds(data, d, Fresh(data), d);
    }
    forall d | !Reached(map[], MANAGED, d) ensures Same(map[], Fresh(data), d) {
      assert d in MANAGED ==> Spot(map[], d) == Some(d);
    }
    assert Progress(map[], data, MANAGED, Fresh(data)) && AllManaged(MANAGED);
    forall p: Path | ServerOf(p).Some? ensures !Overwritten(map[], p) {
      TablesAgree(p, CaCrt, Cacert);
    }
  }

  function AllFine(): Path -> Fate {
    (_: Path) => Fine
  }

  /** Directories, file writes, stats and reads of links go well; removing and making links is not needed. */
  predicate NoObstacle(f: Fate) {
    f == Fine || f == RemoveFails || f == SymlinkFails
  }

  /** Installing again succeeds even if no link can be made or removed, and changes nothing. */
  lemma InstallIdempotent(data: map<Key, Data>, tree: Tree, fate: Path -> Fate, again: Tree)
    requires Installed(data, tree)
    requires forall p: Path | Managed(p) :: NoObstacle(fate(p))
    ensures Succeeds(tree, data, fate)
    ensures Completed(tree, data, again) ==> again == tree
  {
    InstalledIsUnlinked(data, tree);
    forall p: Path | KeyOf(p).Some? ensures WriteSucceeds(tree, p, fate(p)) {
      assert Managed(p) && tree[p] == Proper(data, p);
    }
    forall p: Path | ServerOf(p).Some? ensures LinkSucceeds(tree, p, fate(p)) && !Overwritten(tree, p) {
      TablesAgree(p, CaCrt, Cacert);
      assert Managed(p) && tree[p] == Proper(data, p);
      forall q: Path | KeyOf(q).Some? ensures Spot(tree, q) != Some(p) {
        UnlinkedSpot(tree, q);
      }
    }
    if Completed(tree, data, again) {
      CompletedMeans(tree, data, again);
      assert Replaced(tree, data, tree);
      ReplacedUnique(tree, tree, data, tree, again);
    }
  }
}
