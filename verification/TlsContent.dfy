/**
 What the managed paths lead to after an installation, on every disk: links in place of files, between the
 certificate directories, or to places outside them.
 */
module TlsContent {
  import opened Wrappers
  import opened TlsFiles

  /** What reading a path gives. */
  function Leads(tree: Tree, p: Path): Option<Data> {
    match Destination(tree, p, MAX_HOPS)
    case None => None
    case Some(d) => if d in tree && tree[d].File? then Some(tree[d].data) else None
  }

  function Server(p: Path): Path
    requires ServerOf(p).Some?
  {
    Path(p.dir, ServerOf(p).value)
  }

  /** The secret entry a managed path is to lead to: its own, or that of its server file. */
  function EntryOf(p: Path): Key
    requires Managed(p)
  {
    if KeyOf(p).Some? then KeyOf(p).value
    else if p.name == Clientcert || p.name == ClientCert then TlsCrt
    else TlsKey
  }

  lemma ServerEntry(p: Path)
    requires ServerOf(p).Some?
    ensures KeyOf(Server(p)) == Some(EntryOf(p)) && KeyOf(p).None?
  {
  }

  /** Whoever opens a managed path reads the right entry. */
  ghost predicate Serves(data: map<Key, Data>, tree: Tree) {
    AllKeys(data) && forall p: Path | Managed(p) :: Leads(tree, p) == Some(data[EntryOf(p)])
  }

  // ----- the links after a success --------------------------------------------------

  const CLIENTS: set<Path> :=
    set p | p in LinkTargets(Servercert) + LinkTargets(Serverkey) + LinkTargets(ServerCert) + LinkTargets(ServerKey)

  /** The disk with every client link as it must be. */
  function Corrected(before: Tree): Tree {
    before + map p | p in CLIENTS && ServerOf(p).Some? :: RightLink(p)
  }

  lemma ClientPaths(p: Path)
    ensures p in CLIENTS <==> ServerOf(p).Some?
  {
    TablesAgree(p, CaCrt, Servercert);
    TablesAgree(p, CaCrt, Serverkey);
    TablesAgree(p, CaCrt, ServerCert);
    TablesAgree(p, CaCrt, ServerKey);
  }

  lemma CorrectedLinks(before: Tree, x: Path)
    ensures ServerOf(x).Some? ==> IsRight(Corrected(before), x)
    ensures ServerOf(x).None? ==> Same(before, Corrected(before), x)
  {
    ClientPaths(x);
  }

  ghost predicate FilesEnd(before: Tree, limit: nat) {
    forall p: Path | KeyOf(p).Some? :: Destination(before, p, limit).Some?
  }

  /** Every write ends somewhere, and at no client path. */
  ghost predicate Writable(before: Tree) {
    && FilesEnd(before, MAX_HOPS)
    && (forall p: Path | ServerOf(p).Some? :: !Overwritten(before, p))
  }

  lemma SuccessIsWritable(before: Tree, data: map<Key, Data>, fate: Path -> Fate)
    requires Succeeds(before, data, fate)
    ensures Writable(before)
  {
    forall p: Path | KeyOf(p).Some? ensures Destination(before, p, MAX_HOPS).Some? {
      assert WriteSucceeds(before, p, fate(p));
    }
  }

  /** After a success every path ends where it ends on the corrected disk. */
  lemma CompletedEnds(before: Tree, data: map<Key, Data>, tree: Tree, p: Path, hops: nat)
    requires Writable(before) && Completed(before, data, tree)
    ensures Destination(tree, p, hops) == Destination(Corrected(before), p, hops)
  {
    var done: set<Path> :| Progress(before, data, done, tree) && AllManaged(done);
    ProgressKeepsLinks(before, data, done, tree);
    forall x ensures LinkKept(Corrected(before), tree, x) {
      CorrectedLinks(before, x);
      if ServerOf(x).Some? {
        ClientIsRight(before, data, done, tree, x);
      } else {
        assert Settled(before, x) && LinkKept(before, tree, x);
      }
    }
    SameLinksSameDestination(Corrected(before), tree, p, hops);
  }

  lemma ClientIsRight(before: Tree, data: map<Key, Data>, done: set<Path>, tree: Tree, x: Path)
    requires Writable(before) && Progress(before, data, done, tree) && x in done && ServerOf(x).Some?
    ensures IsRight(tree, x)
  {
    ServerEntry(x);
    assert Reached(before, done, x);
    var w :| w in done && Spot(before, w) == Some(x) && Holds(data, w, tree, x);
    assert KeyOf(w).Some? ==> Overwritten(before, x);
  }

  lemma Follows(tree: Tree, p: Path, hops: nat)
    requires IsLink(tree, p) && Destination(tree, p, hops).Some?
    ensures hops > 0 && Destination(tree, p, hops) == Destination(tree, tree[p].to, hops - 1)
  {
  }

  /**
   Wherever a managed path ends on the corrected disk, some file was written: following links from `x`, which is
   on the way of file `q`, either `q`'s own end is met, or a client link, which leads to another file.
   */
  lemma {:induction false} EndIsWritten(
    before: Tree, after: Tree, x: Path, hops: nat, q: Path, left: nat, limit: nat) returns (t: Path)
    requires FilesEnd(before, limit) && (forall y :: Redirected(before, after, y)) && KeyOf(q).Some?
    requires Destination(before, x, left) == Destination(before, q, limit)
    requires Destination(after, x, hops).Some?
    ensures KeyOf(t).Some? && Destination(before, t, limit) == Destination(after, x, hops)
    decreases hops
  {
    assert Redirected(before, after, x);
    if !IsLink(after, x) {
      t := q;
    } else if KeyOf(after[x].to).Some? && ServerOf(x).Some? {
      var s := after[x].to;
      t := EndIsWritten(before, after, s, hops - 1, s, limit, limit);
    } else {
      Follows(before, x, left);
      t := EndIsWritten(before, after, before[x].to, hops - 1, q, left - 1, limit);
    }
  }

  /** Client links lead to files, all other links are as before. */
  predicate Redirected(before: Tree, after: Tree, x: Path) {
    if ServerOf(x).Some? then IsLink(after, x) && KeyOf(after[x].to).Some? else LinkKept(before, after, x)
  }

  lemma CorrectedRedirects(before: Tree)
    ensures forall x :: Redirected(before, Corrected(before), x)
  {
    forall x ensures Redirected(before, Corrected(before), x) {
      CorrectedLinks(before, x);
      if ServerOf(x).Some? {
        ServerEntry(x);
      }
    }
  }

  lemma ManagedEndIsWritten(before: Tree, p: Path) returns (t: Path)
    requires Writable(before) && Managed(p) && Destination(Corrected(before), p, MAX_HOPS).Some?
    ensures KeyOf(t).Some? && Destination(before, t, MAX_HOPS) == Destination(Corrected(before), p, MAX_HOPS)
  {
    var after := Corrected(before);
    CorrectedRedirects(before);
    if KeyOf(p).Some? {
      t := EndIsWritten(before, after, p, MAX_HOPS, p, MAX_HOPS, MAX_HOPS);
    } else {
      assert Redirected(before, after, p);
      Follows(after, p, MAX_HOPS);
      t := EndIsWritten(before, after, after[p].to, MAX_HOPS - 1, after[p].to, MAX_HOPS, MAX_HOPS);
    }
  }

  /** After a success the end of a file holds the entry of some file that ends there. */
  lemma WrittenEnd(before: Tree, data: map<Key, Data>, tree: Tree, t: Path) returns (w: Path)
    requires Writable(before) && AllKeys(data) && Completed(before, data, tree) && KeyOf(t).Some?
    ensures KeyOf(w).Some? && Destination(before, w, MAX_HOPS) == Destination(before, t, MAX_HOPS)
    ensures var d := Destination(before, t, MAX_HOPS).value; d in tree && tree[d] == File(data[KeyOf(w).value])
  {
    var done: set<Path> :| Progress(before, data, done, tree) && AllManaged(done);
    var d := Destination(before, t, MAX_HOPS).value;
    assert Managed(t) && t in done && Spot(before, t) == Some(d);
    assert Reached(before, done, d);
    w :| w in done && Spot(before, w) == Some(d) && Holds(data, w, tree, d);
    if ServerOf(w).Some? {
      assert Overwritten(before, w);
      assert false;
    }
  }

  // ----- when a success serves ------------------------------------------------------

  /**
   Read off the disk before the call: on the corrected disk every managed path ends, and every file written there
   has the entry that path is to lead to.
   */
  ghost predicate LeadsHome(before: Tree, data: map<Key, Data>) {
    AllKeys(data) && forall p: Path | Managed(p) :: HomeOf(before, data, p)
  }

  ghost predicate HomeOf(before: Tree, data: map<Key, Data>, p: Path)
    requires AllKeys(data) && Managed(p)
  {
    var end := Destination(Corrected(before), p, MAX_HOPS);
    && end.Some?
    && forall q: Path | KeyOf(q).Some? && Destination(before, q, MAX_HOPS) == end :: data[KeyOf(q).value] == data[EntryOf(p)]
  }

  lemma HomeServes(before: Tree, data: map<Key, Data>, tree: Tree)
    requires Writable(before) && LeadsHome(before, data) && Completed(before, data, tree)
    ensures Serves(data, tree)
  {
    forall p: Path | Managed(p) ensures Leads(tree, p) == Some(data[EntryOf(p)]) {
      assert HomeOf(before, data, p);
      CompletedEnds(before, data, tree, p, MAX_HOPS);
      var t := ManagedEndIsWritten(before, p);
      var w := WrittenEnd(before, data, tree, t);
    }
  }

  lemma {:induction false} SomeOutcome(before: Tree, data: map<Key, Data>, done: set<Path>) returns (tree: Tree)
    requires forall p | p in done :: Placeable(data, p)
    ensures Progress(before, data, done, tree)
    decreases done
  {
    if done == {} {
      tree := before;
    } else {
      var p :| p in done;
      var mid := SomeOutcome(before, data, done - {p});
      tree := if Spot(before, p).Some? then mid[Spot(before, p).value := Proper(data, p)] else mid;
      OneMore(before, data, done - {p}, mid, p, tree);
      assert done - {p} + {p} == done;
    }
  }

  /** The tables are ranged over in any order, so of the files that end at one path any can be the last. */
  lemma OutcomeWithLast(before: Tree, data: map<Key, Data>, q: Path) returns (tree: Tree)
    requires AllKeys(data) && KeyOf(q).Some? && Destination(before, q, MAX_HOPS).Some?
    ensures Completed(before, data, tree)
    ensures var d := Destination(before, q, MAX_HOPS).value; d in tree && tree[d] == File(data[KeyOf(q).value])
  {
    ManagedPaths();
    assert AllManaged(MANAGED);
    assert ServerOf(q).None? by { TablesAgree(q, CaCrt, Cacert); }
    var mid := SomeOutcome(before, data, MANAGED);
    tree := mid[Destination(before, q, MAX_HOPS).value := File(data[KeyOf(q).value])];
    OneMore(before, data, MANAGED, mid, q, tree);
    assert MANAGED + {q} == MANAGED;
  }

  lemma ServedIsHome(before: Tree, data: map<Key, Data>, p: Path)
    requires Writable(before) && AllKeys(data) && Managed(p)
    requires forall tree | Completed(before, data, tree) :: Serves(data, tree)
    ensures HomeOf(before, data, p)
  {
    var first := Path(CA, Cacert);
    assert KeyOf(first).Some?;
    var any := OutcomeWithLast(before, data, first);
    CompletedEnds(before, data, any, p, MAX_HOPS);
    assert Leads(any, p).Some?;
    var end := Destination(Corrected(before), p, MAX_HOPS);
    forall q: Path | KeyOf(q).Some? && Destination(before, q, MAX_HOPS) == end
      ensures data[KeyOf(q).value] == data[EntryOf(p)]
    {
      var tree := OutcomeShows(before, data, p, q);
      assert Serves(data, tree);
    }
  }

  lemma OutcomeShows(before: Tree, data: map<Key, Data>, p: Path, q: Path) returns (tree: Tree)
    requires Writable(before) && AllKeys(data) && KeyOf(q).Some?
    requires Destination(before, q, MAX_HOPS) == Destination(Corrected(before), p, MAX_HOPS)
    ensures Completed(before, data, tree) && Leads(tree, p) == Some(data[KeyOf(q).value])
  {
    tree := OutcomeWithLast(before, data, q);
    CompletedEnds(before, data, tree, p, MAX_HOPS);
  }

  /**
   On every disk: a call that succeeds is sure to leave every managed path leading to its own entry exactly if the
   disk led home before the call.
   */
  lemma ServesExactly(before: Tree, data: map<Key, Data>, fate: Path -> Fate)
    requires Succeeds(before, data, fate)
    ensures (forall tree | Completed(before, data, tree) :: Serves(data, tree)) <==> LeadsHome(before, data)
  {
    SuccessIsWritable(before, data, fate);
    if LeadsHome(before, data) {
      forall tree | Completed(before, data, tree) ensures Serves(data, tree) {
        HomeServes(before, data, tree);
      }
    }
    if forall tree | Completed(before, data, tree) :: Serves(data, tree) {
      forall p: Path | Managed(p) ensures HomeOf(before, data, p) {
        ServedIsHome(before, data, p);
      }
    }
  }

  // ----- calm disks -----------------------------------------------------------------

  /** Following links from `p` ends within `hops` and meets only settled paths. */
  predicate Steady(tree: Tree, p: Path, hops: nat)
    decreases hops
  {
    Settled(tree, p) && (IsLink(tree, p) ==> hops > 0 && Steady(tree, tree[p].to, hops - 1))
  }

  /** No file is behind a client link that an installation changes, and a client link more does not exceed the limit. */
  ghost predicate Calm(tree: Tree) {
    forall p: Path | KeyOf(p).Some? :: Steady(tree, p, MAX_HOPS - 1)
  }

  /** Files that end at one path have the same content. */
  ghost predicate Agree(tree: Tree, data: map<Key, Data>) {
    forall p: Path, q: Path | SharedEnd(tree, p, q) && KeyOf(p).value in data && KeyOf(q).value in data ::
      data[KeyOf(p).value] == data[KeyOf(q).value]
  }

  predicate SharedEnd(tree: Tree, p: Path, q: Path) {
    KeyOf(p).Some? && KeyOf(q).Some? && Destination(tree, p, MAX_HOPS) == Destination(tree, q, MAX_HOPS)
  }

  ghost predicate SameEnds(before: Tree, tree: Tree) {
    forall p: Path | KeyOf(p).Some? :: Destination(tree, p, MAX_HOPS) == Destination(before, p, MAX_HOPS)
  }

  lemma {:induction false} SteadyEnds(tree: Tree, p: Path, hops: nat, more: nat)
    requires Steady(tree, p, hops) && hops <= more
    ensures Destination(tree, p, more).Some? && ServerOf(Destination(tree, p, more).value).None?
    ensures Destination(tree, p, more) == Destination(tree, p, hops)
    decreases hops
  {
    if IsLink(tree, p) {
      SteadyEnds(tree, tree[p].to, hops - 1, more - 1);
    }
  }

  lemma {:induction false} SteadyKept(before: Tree, tree: Tree, p: Path, hops: nat)
    requires SettledLinksKept(before, tree) && Steady(before, p, hops)
    ensures Steady(tree, p, hops) && Destination(tree, p, hops) == Destination(before, p, hops)
    decreases hops
  {
    assert Settled(before, p) && LinkKept(before, tree, p);
    if IsLink(before, p) {
      SteadyKept(before, tree, before[p].to, hops - 1);
    }
  }

  /** Nothing an installation does, finished or not, disturbs a calm disk. */
  lemma CalmKept(before: Tree, tree: Tree)
    requires SettledLinksKept(before, tree) && Calm(before)
    ensures Calm(tree) && SameEnds(before, tree)
  {
    forall p: Path | KeyOf(p).Some?
      ensures Steady(tree, p, MAX_HOPS - 1) && Destination(tree, p, MAX_HOPS) == Destination(before, p, MAX_HOPS)
    {
      SteadyKept(before, tree, p, MAX_HOPS - 1);
      SteadyEnds(before, p, MAX_HOPS - 1, MAX_HOPS);
      SteadyEnds(tree, p, MAX_HOPS - 1, MAX_HOPS);
    }
  }

  lemma CalmIsWritable(before: Tree)
    requires Calm(before)
    ensures Writable(before)
  {
    forall p: Path | KeyOf(p).Some?
      ensures Destination(before, p, MAX_HOPS).Some? && ServerOf(Destination(before, p, MAX_HOPS).value).None?
    {
      SteadyEnds(before, p, MAX_HOPS - 1, MAX_HOPS);
    }
    forall p: Path, q: Path | ServerOf(p).Some? && KeyOf(q).Some? ensures Spot(before, q) != Some(p) {
      TablesAgree(q, CaCrt, Cacert);
    }
  }

  /** A right client link on a calm disk ends where its server file does. */
  lemma ClientEnds(tree: Tree, c: Path)
    requires Calm(tree) && IsRight(tree, c)
    ensures Destination(tree, c, MAX_HOPS) == Destination(tree, Server(c), MAX_HOPS)
  {
    ServerEntry(c);
    SteadyEnds(tree, Server(c), MAX_HOPS - 1, MAX_HOPS);
  }

  /** On a calm disk, to lead home is to agree. */
  lemma CalmExactly(before: Tree, data: map<Key, Data>)
    requires Calm(before) && AllKeys(data)
    ensures LeadsHome(before, data) <==> Agree(before, data)
  {
    var after := Corrected(before);
    forall x: Path | Settled(before, x) ensures LinkKept(before, after, x) {
      CorrectedLinks(before, x);
    }
    CalmKept(before, after);
    CalmIsWritable(before);
    if LeadsHome(before, data) {
      forall p: Path, q: Path | SharedEnd(before, p, q) ensures data[KeyOf(p).value] == data[KeyOf(q).value] {
        assert Managed(p) && HomeOf(before, data, p);
      }
    }
    if Agree(before, data) {
      forall p: Path | Managed(p) ensures HomeOf(before, data, p) {
        var f := if KeyOf(p).Some? then p else Server(p);
        if ServerOf(p).Some? {
          ServerEntry(p);
          CorrectedLinks(before, p);
          ClientEnds(after, p);
        }
        assert Destination(after, p, MAX_HOPS) == Destination(before, f, MAX_HOPS);
        forall q: Path | KeyOf(q).Some? && Destination(before, q, MAX_HOPS) == Destination(after, p, MAX_HOPS)
          ensures data[KeyOf(q).value] == data[EntryOf(p)]
        {
          assert SharedEnd(before, q, f);
        }
      }
    }
  }

  // ----- what stays in place --------------------------------------------------------

  /** What a success leaves on a calm disk: right client links, and at the end of every file some entry that belongs there. */
  ghost predicate InPlace(data: map<Key, Data>, tree: Tree) {
    && AllKeys(data)
    && (forall c: Path | ServerOf(c).Some? :: IsRight(tree, c))
    && (forall p: Path | KeyOf(p).Some? :: Filled(data, tree, p))
  }

  ghost predicate Filled(data: map<Key, Data>, tree: Tree, p: Path) {
    var end := Destination(tree, p, MAX_HOPS);
    end.Some? && exists q: Path :: SharedEnd(tree, p, q) && Holds(data, q, tree, end.value)
  }

  lemma CompletedInPlace(before: Tree, data: map<Key, Data>, tree: Tree)
    requires Calm(before) && AllKeys(data) && Completed(before, data, tree)
    ensures Calm(tree) && SameEnds(before, tree) && InPlace(data, tree)
  {
    CalmIsWritable(before);
    CompletedMeans(before, data, tree);
    CalmKept(before, tree);
    var done: set<Path> :| Progress(before, data, done, tree) && AllManaged(done);
    forall c: Path | ServerOf(c).Some? ensures IsRight(tree, c) {
      ClientIsRight(before, data, done, tree, c);
    }
    forall p: Path | KeyOf(p).Some? ensures Filled(data, tree, p) {
      var w := WrittenEnd(before, data, tree, p);
      assert SharedEnd(tree, p, w) && Holds(data, w, tree, Destination(tree, p, MAX_HOPS).value);
    }
  }

  /** Two paths that end together cannot lead to different entries. */
  lemma ServesAgrees(data: map<Key, Data>, tree: Tree)
    requires Serves(data, tree)
    ensures Agree(tree, data)
  {
    forall p: Path, q: Path | SharedEnd(tree, p, q) ensures data[KeyOf(p).value] == data[KeyOf(q).value] {
      assert Managed(p) && Managed(q) && Leads(tree, p) == Leads(tree, q);
    }
  }

  lemma InPlaceServesExactly(data: map<Key, Data>, tree: Tree)
    requires Calm(tree) && InPlace(data, tree)
    ensures Serves(data, tree) <==> Agree(tree, data)
  {
    if Serves(data, tree) {
      ServesAgrees(data, tree);
    }
    if Agree(tree, data) {
      forall p: Path | Managed(p) ensures Leads(tree, p) == Some(data[EntryOf(p)]) {
        var f := if KeyOf(p).Some? then p else Server(p);
        if ServerOf(p).Some? {
          ServerEntry(p);
          ClientEnds(tree, p);
        }
        assert Filled(data, tree, f);
        var q: Path :| SharedEnd(tree, f, q) && Holds(data, q, tree, Destination(tree, f, MAX_HOPS).value);
      }
    }
  }

  /** With empty entries a repeated installation damages nothing wherever it is cut off. */
  lemma EmptyReinstallKeeps(data: map<Key, Data>, before: Tree, fate: Path -> Fate, tree: Tree)
    requires Calm(before) && InPlace(data, before) && (forall k | k in data :: data[k] == "")
    requires Interrupted(before, data, fate, tree)
    ensures InPlace(data, tree)
  {
    var done, mid, torn :| TornAt(before, data, fate, done, mid, torn, tree);
    ReinstallProgress(data, before, done, mid);
    EmptyFailureKeeps(data, mid, torn, fate(torn), tree);
  }

  lemma ReinstallProgress(data: map<Key, Data>, before: Tree, done: set<Path>, mid: Tree)
    requires Calm(before) && InPlace(data, before) && Progress(before, data, done, mid)
    ensures InPlace(data, mid)
  {
    CalmIsWritable(before);
    ProgressKeepsLinks(before, data, done, mid);
    CalmKept(before, mid);
    forall c: Path | ServerOf(c).Some? ensures IsRight(mid, c) {
      if Reached(before, done, c) {
        var w :| w in done && Spot(before, w) == Some(c) && Holds(data, w, mid, c);
        assert KeyOf(w).Some? ==> Overwritten(before, c);
        ServerEntry(c);
      } else {
        assert Same(before, mid, c);
      }
    }
    forall p: Path | KeyOf(p).Some? ensures Filled(data, mid, p) {
      var d := Destination(before, p, MAX_HOPS).value;
      assert Filled(data, before, p);
      if Reached(before, done, d) {
        var w :| w in done && Spot(before, w) == Some(d) && Holds(data, w, mid, d);
        assert ServerOf(w).Some? ==> Overwritten(before, w);
        assert SharedEnd(mid, p, w);
      } else {
        assert Same(before, mid, d);
        var q: Path :| SharedEnd(before, p, q) && Holds(data, q, before, d);
        assert SharedEnd(mid, p, q) && Holds(data, q, mid, d);
      }
    }
  }

  lemma EmptyFailureKeeps(data: map<Key, Data>, mid: Tree, p: Path, f: Fate, tree: Tree)
    requires InPlace(data, mid) && (forall k | k in data :: data[k] == "")
    requires FailsAt(mid, data, p, f, tree)
    ensures tree == mid
  {
    if KeyOf(p).Some? {
      var d := EmptyEnd(data, mid, p);
      EmptyWriteKeeps(mid, p, data[KeyOf(p).value], f, d);
    } else {
      assert IsRight(mid, p);
      RightLinkKeeps(mid, p, f);
    }
  }

  lemma EmptyEnd(data: map<Key, Data>, mid: Tree, p: Path) returns (d: Path)
    requires Filled(data, mid, p) && (forall k | k in data :: data[k] == "")
    ensures Destination(mid, p, MAX_HOPS) == Some(d) && d in mid && mid[d] == File("")
  {
    d := Destination(mid, p, MAX_HOPS).value;
    var q: Path :| SharedEnd(mid, p, q) && Holds(data, q, mid, d);
  }

  lemma RightLinkKeeps(mid: Tree, p: Path, f: Fate)
    requires IsRight(mid, p)
    ensures AfterLink(mid, p, f) == mid
  {
    assert mid[p := RightLink(p)] == mid;
  }

  lemma EmptyWriteKeeps(mid: Tree, p: Path, data: Data, f: Fate, d: Path)
    requires Destination(mid, p, MAX_HOPS) == Some(d) && d in mid && mid[d] == File("") && data == ""
    ensures AfterFile(mid, p, data, f) == mid
  {
    assert f.WriteFails? && f.kept.Some? ==> Prefix(data, f.kept.value) == "";
    assert mid[d := File("")] == mid;
  }

  // ----- disks without links in place of files --------------------------------------

  /** Such a disk is calm and agrees on every secret, and there to be in place is to be installed. */
  lemma UnlinkedIsCalm(data: map<Key, Data>, tree: Tree)
    requires NoLinkedTargets(tree)
    ensures Calm(tree) && Agree(tree, data)
    ensures InPlace(data, tree) <==> Installed(data, tree)
  {
    forall p: Path | KeyOf(p).Some? ensures Steady(tree, p, MAX_HOPS - 1) && Destination(tree, p, MAX_HOPS) == Some(p) {
      TablesAgree(p, CaCrt, Cacert);
      assert !IsLink(tree, p);
    }
    if InPlace(data, tree) {
      forall p: Path | Managed(p) ensures p in tree && tree[p] == Proper(data, p) {
        if KeyOf(p).Some? {
          assert Filled(data, tree, p);
        } else {
          assert IsRight(tree, p);
        }
      }
    }
    if Installed(data, tree) {
      forall p: Path | Managed(p) ensures if KeyOf(p).Some? then Filled(data, tree, p) else IsRight(tree, p) {
        assert tree[p] == Proper(data, p);
        assert KeyOf(p).Some? ==> SharedEnd(tree, p, p) && Holds(data, p, tree, p);
      }
      forall c: Path | ServerOf(c).Some? ensures IsRight(tree, c) {
        ServerEntry(c);
        assert Managed(c);
      }
    }
  }

  /** Every file leads to its entry, and every client link to that of the server file of its own directory. */
  lemma InstalledServes(data: map<Key, Data>, tree: Tree)
    requires Installed(data, tree)
    ensures Serves(data, tree)
  {
    InstalledIsUnlinked(data, tree);
    UnlinkedIsCalm(data, tree);
    InPlaceServesExactly(data, tree);
  }

  // ----- linked disks, good and bad -------------------------------------------------

  const CA_COPY := Path(Qemu, CaCert)
  const SERVER_COPY := Path(Qemu, ServerCert)
  const CLIENT_LINK := Path(Qemu, ClientCert)

  /** A CA certificate linked to the one of another directory: both files have the same entry. */
  const HARMLESS_DISK: Tree := map[CA_COPY := Link(Path(CA, Cacert), false)]

  /** A CA certificate linked to a server certificate: two entries for one file. */
  const SHARED_DISK: Tree := map[CA_COPY := Link(SERVER_COPY, true)]

  /** A CA certificate behind a client link that the installation will correct. */
  const DETOUR_DISK: Tree := map[CA_COPY := Link(CLIENT_LINK, true), CLIENT_LINK := Link(Path(Qemu, Cacert), true)]

  lemma OneLinkEnds(to: Path, bare: bool, p: Path)
    requires to != CA_COPY && ServerOf(to).None?
    ensures var disk: Tree := map[CA_COPY := Link(to, bare)];
      && Destination(disk, p, MAX_HOPS) == Some(if p == CA_COPY then to else p)
      && (KeyOf(p).Some? ==> Steady(disk, p, MAX_HOPS - 1))
  {
    var disk: Tree := map[CA_COPY := Link(to, bare)];
    assert IsLink(disk, p) <==> p == CA_COPY;
    assert Steady(disk, to, MAX_HOPS - 2);
    TablesAgree(p, CaCrt, Cacert);
  }

  lemma OneLinkSucceeds(to: Path, bare: bool, data: map<Key, Data>)
    requires to != CA_COPY && ServerOf(to).None? && AllKeys(data)
    ensures var disk: Tree := map[CA_COPY := Link(to, bare)]; Succeeds(disk, data, AllFine()) && Calm(disk)
  {
    var disk: Tree := map[CA_COPY := Link(to, bare)];
    forall p: Path | KeyOf(p).Some? ensures WriteSucceeds(disk, p, Fine) && Steady(disk, p, MAX_HOPS - 1) {
      OneLinkEnds(to, bare, p);
    }
    CalmIsWritable(disk);
    forall p: Path | ServerOf(p).Some? ensures LinkSucceeds(disk, p, Fine) {
      assert p != CA_COPY;
    }
  }

  /** Links alone do no harm: here the call succeeds and every path leads to its entry. */
  method HarmlessLink(data: map<Key, Data>) returns (ok: bool, tree: Tree)
    requires AllKeys(data)
    ensures ok && Serves(data, tree) && IsLink(tree, CA_COPY)
  {
    OneLinkSucceeds(Path(CA, Cacert), false, data);
    forall p: Path, q: Path | SharedEnd(HARMLESS_DISK, p, q) ensures KeyOf(p) == KeyOf(q) {
      OneLinkEnds(Path(CA, Cacert), false, p);
      OneLinkEnds(Path(CA, Cacert), false, q);
    }
    CalmExactly(HARMLESS_DISK, data);
    CalmIsWritable(HARMLESS_DISK);
    var store := new CertificateStore(HARMLESS_DISK);
    ok := store.UpdateTLSCertificate(data, AllFine());
    tree := store.tree;
    HomeServes(HARMLESS_DISK, data, tree);
    assert Settled(HARMLESS_DISK, CA_COPY) && LinkKept(HARMLESS_DISK, tree, CA_COPY);
  }

  lemma AgreeKept(before: Tree, tree: Tree, data: map<Key, Data>)
    requires SameEnds(before, tree)
    ensures Agree(before, data) <==> Agree(tree, data)
  {
    forall p: Path, q: Path ensures SharedEnd(before, p, q) <==> SharedEnd(tree, p, q) {
    }
  }

  lemma SharedDiskDisagrees(data: map<Key, Data>)
    requires AllKeys(data) && data[CaCrt] != data[TlsCrt]
    ensures Succeeds(SHARED_DISK, data, AllFine()) && Calm(SHARED_DISK) && !Agree(SHARED_DISK, data)
  {
    OneLinkSucceeds(SERVER_COPY, true, data);
    OneLinkEnds(SERVER_COPY, true, CA_COPY);
    OneLinkEnds(SERVER_COPY, true, SERVER_COPY);
    assert SharedEnd(SHARED_DISK, CA_COPY, SERVER_COPY);
  }

  /** A link between files of two entries: the call succeeds, and one of the two paths is wrong whatever the order. */
  method SharedLinkSpoils(data: map<Key, Data>) returns (ok: bool, tree: Tree)
    requires AllKeys(data) && data[CaCrt] != data[TlsCrt]
    ensures ok && !Serves(data, tree)
  {
    SharedDiskDisagrees(data);
    var store := new CertificateStore(SHARED_DISK);
    ok := store.UpdateTLSCertificate(data, AllFine());
    tree := store.tree;
    SharedStaysWrong(SHARED_DISK, data, tree);
  }

  lemma SharedStaysWrong(before: Tree, data: map<Key, Data>, tree: Tree)
    requires Calm(before) && !Agree(before, data) && SettledLinksKept(before, tree)
    ensures !Serves(data, tree)
  {
    CalmKept(before, tree);
    AgreeKept(before, tree, data);
    if Serves(data, tree) {
      ServesAgrees(data, tree);
    }
  }

  lemma DetourEnds(p: Path)
    requires KeyOf(p).Some?
    ensures Destination(DETOUR_DISK, p, MAX_HOPS) == Some(if p == CA_COPY then Path(Qemu, Cacert) else p)
  {
    var disk := DETOUR_DISK;
    assert !IsLink(disk, Path(Qemu, Cacert));
    assert Destination(disk, CLIENT_LINK, MAX_HOPS - 1) == Destination(disk, Path(Qemu, Cacert), MAX_HOPS - 2);
    assert Destination(disk, CA_COPY, MAX_HOPS) == Destination(disk, CLIENT_LINK, MAX_HOPS - 1);
    assert p != CLIENT_LINK;
  }

  lemma DetourSucceeds(data: map<Key, Data>)
    requires AllKeys(data)
    ensures Succeeds(DETOUR_DISK, data, AllFine()) && Agree(DETOUR_DISK, data)
    ensures forall p: Path, q: Path | SharedEnd(DETOUR_DISK, p, q) :: p == q
  {
    forall p: Path, q: Path | SharedEnd(DETOUR_DISK, p, q) ensures p == q {
      DetourEnds(p);
      DetourEnds(q);
    }
    forall p: Path | KeyOf(p).Some? ensures WriteSucceeds(DETOUR_DISK, p, Fine) {
      DetourEnds(p);
    }
    forall p: Path | ServerOf(p).Some? ensures LinkSucceeds(DETOUR_DISK, p, Fine) && !Overwritten(DETOUR_DISK, p) {
      assert p != CA_COPY && p != Path(Qemu, Cacert);
      forall q: Path | KeyOf(q).Some? ensures Spot(DETOUR_DISK, q) != Some(p) {
        DetourEnds(q);
        ServerEntry(p);
      }
    }
  }

  lemma DetourCorrected()
    ensures Destination(Corrected(DETOUR_DISK), CA_COPY, MAX_HOPS) == Some(SERVER_COPY)
  {
    var after := Corrected(DETOUR_DISK);
    CorrectedLinks(DETOUR_DISK, CA_COPY);
    CorrectedLinks(DETOUR_DISK, CLIENT_LINK);
    CorrectedLinks(DETOUR_DISK, SERVER_COPY);
    assert after[CA_COPY].to == CLIENT_LINK && after[CLIENT_LINK].to == SERVER_COPY && !IsLink(after, SERVER_COPY);
    assert Destination(after, CLIENT_LINK, MAX_HOPS - 1) == Destination(after, SERVER_COPY, MAX_HOPS - 2);
    assert Destination(after, CA_COPY, MAX_HOPS) == Destination(after, CLIENT_LINK, MAX_HOPS - 1);
  }

  lemma DetourMisleads(data: map<Key, Data>, tree: Tree)
    requires AllKeys(data) && Completed(DETOUR_DISK, data, tree)
    ensures Leads(tree, CA_COPY) == Some(data[TlsCrt])
  {
    DetourSucceeds(data);
    SuccessIsWritable(DETOUR_DISK, data, AllFine());
    CompletedEnds(DETOUR_DISK, data, tree, CA_COPY, MAX_HOPS);
    DetourCorrected();
    DetourEnds(SERVER_COPY);
    var w := WrittenEnd(DETOUR_DISK, data, tree, SERVER_COPY);
    assert SharedEnd(DETOUR_DISK, w, SERVER_COPY);
  }

  /** A file behind a client link: no two files end together, and yet correcting the link leads the CA path astray. */
  method DetourSpoils(data: map<Key, Data>) returns (ok: bool, tree: Tree)
    requires AllKeys(data)
    ensures ok && Leads(tree, CA_COPY) == Some(data[TlsCrt])
    ensures forall p: Path, q: Path | SharedEnd(DETOUR_DISK, p, q) :: p == q
  {
    DetourSucceeds(data);
    var store := new CertificateStore(DETOUR_DISK);
    ok := store.UpdateTLSCertificate(data, AllFine());
    tree := store.tree;
    DetourMisleads(data, tree);
  }
}
