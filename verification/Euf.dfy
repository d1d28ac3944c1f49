/** The backtrackable equality engine: union-find without path compression, use lists, signature
    table and proof graph, all rolled back by `Pop`. */
module EufEngine {
  import opened Lits
  import opened CongruenceModel
  import opened ProofForest
  import opened ProofPaths
  import opened EventLog

  /** Hash-consed: arguments come before their term, and no application occurs twice. */
  ghost predicate ArenaOk(ts: Arena) {
    && (forall t, i :: 0 <= t < |ts| && !ts[t].Other? && 0 <= i < |ts[t].args| ==> ts[t].args[i] < t)
    && (forall t, u :: 0 <= t < u < |ts| && ts[t].Apply? ==> ts[t] != ts[u])
  }

  // ---------- what holds of a log ----------

  ghost predicate Justified(ts: Arena, reg: set<nat>, log: seq<Event>, eqs: set<Equation>)
    requires Registered(ts, reg)
  {
    && LinksOk(LinksOf(log), reg)
    && EdgesOk(ts, reg, LinksOf(log), EdgesOf(log), eqs)
    && TableOk(ts, reg, LinksOf(log), TableOf(log))
    && (forall d :: d in DiseqsOf(log) ==> d.a in reg && d.b in reg)
    && (forall e :: e in eqs ==> e.a in reg && e.b in reg)
  }

  ghost predicate Saturated(ts: Arena, reg: set<nat>, log: seq<Event>, eqs: set<Equation>)
    requires Registered(ts, reg)
  {
    && Closed(ts, reg, LinksOf(log), TableOf(log), {})
    && forall e :: e in eqs ==> Root(LinksOf(log), e.a) == Root(LinksOf(log), e.b)
  }

  /** The state that `Push` saw. */
  datatype Frame = Frame(asserted: set<Equation>, parent: map<nat, nat>, adj: Adjacency, table: map<Sig, nat>,
                         diseqs: seq<Disequality>)

  ghost predicate MarkOk(ts: Arena, reg: set<nat>, log: seq<Event>, fr: Frame, uses: map<nat, seq<nat>>)
    requires Registered(ts, reg)
  {
    && fr.parent.Keys == reg && Synced(fr.parent, fr.adj, fr.table, fr.diseqs, log)
    && Justified(ts, reg, log, fr.asserted) && Saturated(ts, reg, log, fr.asserted)
    && UsesOk(ts, reg, LinksOf(log), uses)
  }

  ghost predicate MarksOk(ts: Arena, reg: set<nat>, log: seq<Event>, scopes: seq<nat>, frames: seq<Frame>, uses: map<nat, seq<nat>>)
    requires Registered(ts, reg)
  {
    && |scopes| == |frames|
    && (forall i, j :: 0 <= i <= j < |scopes| ==> scopes[i] <= scopes[j] <= |log|)
    && (forall i :: 0 <= i < |scopes| ==> MarkOk(ts, reg, log[..scopes[i]], frames[i], uses))
  }

  /** Use lists are only ever appended to. */
  ghost predicate UsesGrow(uses: map<nat, seq<nat>>, uses': map<nat, seq<nat>>) {
    forall r :: r in uses ==> r in uses' && uses[r] <= uses'[r]
  }

  ghost predicate UsersOk(ts: Arena, reg: set<nat>, uses: map<nat, seq<nat>>)
    requires Registered(ts, reg)
  {
    forall r, k :: r in uses && 0 <= k < |uses[r]| ==> uses[r][k] in reg && ts[uses[r][k]].Apply?
  }

  lemma UsesStay(ts: Arena, reg: set<nat>, links: seq<Link>, uses: map<nat, seq<nat>>, uses': map<nat, seq<nat>>)
    requires Registered(ts, reg) && UsesOk(ts, reg, links, uses) && UsesGrow(uses, uses') && UsersOk(ts, reg, uses')
    ensures UsesOk(ts, reg, links, uses')
  {
    forall t, i | t in reg && ts[t].Apply? && 0 <= i < |ts[t].args|
      ensures Root(links, ts[t].args[i]) in uses' && t in uses'[Root(links, ts[t].args[i])]
    {
      var r := Root(links, ts[t].args[i]);
      assert t in uses[r];
      var k :| 0 <= k < |uses[r]| && uses[r][k] == t;
      assert uses'[r][k] == t;
    }
  }

  lemma UsersOfUses(ts: Arena, reg: set<nat>, links: seq<Link>, uses: map<nat, seq<nat>>)
    requires Registered(ts, reg) && UsesOk(ts, reg, links, uses)
    ensures UsersOk(ts, reg, uses)
  {
  }

  lemma MarksStay(ts: Arena, reg: set<nat>, log: seq<Event>, log': seq<Event>, scopes: seq<nat>, frames: seq<Frame>,
                  uses: map<nat, seq<nat>>, uses': map<nat, seq<nat>>)
    requires Registered(ts, reg) && MarksOk(ts, reg, log, scopes, frames, uses) && log <= log'
    requires UsesGrow(uses, uses') && UsersOk(ts, reg, uses')
    ensures MarksOk(ts, reg, log', scopes, frames, uses')
  {
    hide Registered, Justified, Saturated, Synced, UsesGrow, UsersOk, UsesOk, LinksOf;
    forall i | 0 <= i < |scopes| ensures MarkOk(ts, reg, log'[..scopes[i]], frames[i], uses') {
      assert scopes[i] <= |log|;
      assert log'[..scopes[i]] == log[..scopes[i]];
      assert MarkOk(ts, reg, log[..scopes[i]], frames[i], uses);
      UsesStay(ts, reg, LinksOf(log[..scopes[i]]), uses, uses');
    }
    assert forall i, j :: 0 <= i <= j < |scopes| ==> scopes[i] <= scopes[j] <= |log'|;
  }

  // ---------- steps of `Find` ----------

  lemma FindStep(parent: map<nat, nat>, links: seq<Link>, t: nat)
    requires ParentsOk(parent, links) && LinksOk(links, parent.Keys) && t in parent && parent[t] != t
    ensures Root(links, parent[t]) == Root(links, t)
    ensures LinkTime(links, t) < LinkTime(links, parent[t]) <= |links|
  {
    ParentStep(links, parent.Keys, t);
  }

  lemma {:induction false} RootOutside(links: seq<Link>, reg: set<nat>, t: nat)
    requires LinksOk(links, reg) && t !in reg
    ensures Root(links, t) == t
    decreases |links|
  {
    if links != [] {
      LinksPrefix(links, reg, |links| - 1);
      RootOutside(links[..|links| - 1], reg, t);
    }
  }

  lemma FindStops(parent: map<nat, nat>, links: seq<Link>, t: nat)
    requires ParentsOk(parent, links) && LinksOk(links, parent.Keys) && (t !in parent || parent[t] == t)
    ensures Root(links, t) == t
  {
    if t in parent { RootIffNoParent(links, parent.Keys, t); } else { RootOutside(links, parent.Keys, t); }
  }

  // ---------- steps of `Merge` ----------

  lemma LinkedSynced(parent: map<nat, nat>, adj: Adjacency, table: map<Sig, nat>, diseqs: seq<Disequality>, log: seq<Event>,
                     undo: seq<UndoAction>, e: ProofEdge, l: Link, oldRank: nat)
    requires Synced(parent, adj, table, diseqs, log) && Undoable(log, undo) && e.a != e.b
    ensures Synced(parent[l.child := l.parent], Listed(Listed(adj, e.a, (e.b, e.reason)), e.b, (e.a, e.reason)), table, diseqs,
                   log + [Edge(e), Linked(l)])
    ensures Undoable(log + [Edge(e), Linked(l)], undo + [RemoveProofEdge(e.a, e.b), UndoLink(l.child, l.child, oldRank)])
    ensures LinksOf(log + [Edge(e), Linked(l)]) == LinksOf(log) + [l] && EdgesOf(log + [Edge(e), Linked(l)]) == EdgesOf(log) + [e]
    ensures TableOf(log + [Edge(e), Linked(l)]) == TableOf(log) && DiseqsOf(log + [Edge(e), Linked(l)]) == DiseqsOf(log)
  {
    hide LinksOf, EdgesOf, TableOf, DiseqsOf, Mirrors, Listed;
    var mid := log + [Edge(e)];
    assert log + [Edge(e), Linked(l)] == mid + [Linked(l)];
    LogAppend(log, Edge(e));
    LogAppend(mid, Linked(l));
    MirrorsPush(adj, EdgesOf(log), e);
    UndoableAppend(log, undo, Edge(e), RemoveProofEdge(e.a, e.b));
    UndoableAppend(mid, undo + [RemoveProofEdge(e.a, e.b)], Linked(l), UndoLink(l.child, l.child, oldRank));
    assert undo + [RemoveProofEdge(e.a, e.b), UndoLink(l.child, l.child, oldRank)]
        == undo + [RemoveProofEdge(e.a, e.b)] + [UndoLink(l.child, l.child, oldRank)];
    assert (LinksOf(log) + [l])[..|LinksOf(log)|] == LinksOf(log);
  }

  lemma JustifiedAfterLink(ts: Arena, reg: set<nat>, log: seq<Event>, eqs: set<Equation>, e: ProofEdge, l: Link, log': seq<Event>)
    requires Registered(ts, reg) && Justified(ts, reg, log, eqs)
    requires LinksOf(log') == LinksOf(log) + [l] && EdgesOf(log') == EdgesOf(log) + [e]
    requires TableOf(log') == TableOf(log) && DiseqsOf(log') == DiseqsOf(log)
    requires e.a in reg && e.b in reg && {Root(LinksOf(log), e.a), Root(LinksOf(log), e.b)} == {l.child, l.parent} && l.child != l.parent
    requires e.reason.Some? ==> Equation(e.a, e.b, e.reason.value) in eqs
    requires e.reason == None ==> SameUpTo(ts, e.a, e.b, Kernel(LinksOf(log)))
    ensures Justified(ts, reg, log', eqs)
    ensures Root(LinksOf(log), l.parent) == l.parent && Root(LinksOf(log), l.child) == l.child
  {
    hide LinksOf, EdgesOf, TableOf, DiseqsOf, LinksOk, EdgesOk, TableOk;
    var links := LinksOf(log);
    RootIffNoParent(links, reg, e.a);
    RootIffNoParent(links, reg, e.b);
    PairMembers(Root(links, e.a), Root(links, e.b), l.child, l.parent);
    LinksAfterLink(links, reg, l);
    EdgesAfterLink(ts, reg, links, EdgesOf(log), l, e, eqs);
    TableAfterLink(ts, reg, links, l, TableOf(log));
  }

  /** A new signature entry, on the log and on the undo trail. */
  lemma LookupSynced(ts: Arena, parent: map<nat, nat>, adj: Adjacency, table: map<Sig, nat>, diseqs: seq<Disequality>, log: seq<Event>,
                     undo: seq<UndoAction>, eqs: set<Equation>, app: nat, sig: Sig)
    requires Registered(ts, parent.Keys) && Synced(parent, adj, table, diseqs, log) && Undoable(log, undo)
    requires Justified(ts, parent.Keys, log, eqs)
    requires app in parent && ts[app].Apply? && sig == SigOf(ts, LinksOf(log), app) && sig !in table
    ensures Synced(parent, adj, table[sig := app], diseqs, log + [Lookup(sig, app)])
    ensures Undoable(log + [Lookup(sig, app)], undo + [AddLookup(sig, None)])
    ensures Justified(ts, parent.Keys, log + [Lookup(sig, app)], eqs)
    ensures LinksOf(log + [Lookup(sig, app)]) == LinksOf(log) && EdgesOf(log + [Lookup(sig, app)]) == EdgesOf(log)
  {
    hide LinksOf, EdgesOf, TableOf, DiseqsOf, Mirrors, ParentsOk, LinksOk, EdgesOk, TableOk, Registered, SigOf;
    var e := Lookup(sig, app);
    LogAppend(log, e);
    assert (log + [e])[..|log|] == log;
    UndoableAppend(log, undo, e, AddLookup(sig, None));
    TableInsert(ts, parent.Keys, LinksOf(log), table, app);
  }

  ghost function PairSet(ps: seq<(nat, nat)>): set<(nat, nat)> { set p | p in ps }

  /** The pairs are congruent over the links. */
  ghost predicate InducedOk(ts: Arena, reg: set<nat>, links: seq<Link>, ps: seq<(nat, nat)>)
    requires Registered(ts, reg)
  {
    forall p :: p in ps ==> p.0 in reg && p.1 in reg && SameUpTo(ts, p.0, p.1, Kernel(links))
  }

  lemma InducedMore(ts: Arena, reg: set<nat>, links: seq<Link>, ps: seq<(nat, nat)>, p: (nat, nat))
    requires Registered(ts, reg) && InducedOk(ts, reg, links, ps)
    requires p.0 in reg && p.1 in reg && SameUpTo(ts, p.0, p.1, Kernel(links))
    ensures InducedOk(ts, reg, links, ps + [p]) && PairSet(ps + [p]) == PairSet(ps) + {p}
  {
  }

  lemma InducedStay(ts: Arena, reg: set<nat>, links: seq<Link>, links': seq<Link>, ps: seq<(nat, nat)>)
    requires Registered(ts, reg) && InducedOk(ts, reg, links, ps) && links <= links'
    ensures InducedOk(ts, reg, links', ps)
  {
    forall p | p in ps ensures SameUpTo(ts, p.0, p.1, Kernel(links')) { SameUpToGrows(ts, links, links', p.0, p.1); }
  }

  lemma PairSetSplit(ps: seq<(nat, nat)>, i: nat)
    requires i < |ps|
    ensures PairSet(ps[i..]) == PairSet(ps[i + 1..]) + {ps[i]}
  {
    assert ps[i..] == [ps[i]] + ps[i + 1..];
  }

  lemma UsersAt(ts: Arena, reg: set<nat>, uses: map<nat, seq<nat>>, r: nat)
    requires Registered(ts, reg) && UsersOk(ts, reg, uses)
    ensures forall k :: 0 <= k < |Get(uses, r)| ==> Get(uses, r)[k] in reg && Get(uses, r)[k] < |ts| && ts[Get(uses, r)[k]].Apply?
  {
    var list := Get(uses, r);
    forall k | 0 <= k < |list| ensures list[k] in reg && list[k] < |ts| && ts[list[k]].Apply? {
      assert list == uses[r] && uses[r][k] in reg;
    }
  }

  lemma UsesGrowOnce(uses: map<nat, seq<nat>>, r: nat, more: seq<nat>)
    ensures UsesGrow(uses, uses[r := Get(uses, r) + more])
  {
  }

  lemma UsesGrowTrans(u: map<nat, seq<nat>>, v: map<nat, seq<nat>>, w: map<nat, seq<nat>>)
    requires UsesGrow(u, v) && UsesGrow(v, w)
    ensures UsesGrow(u, w)
  {
    forall r | r in u ensures r in w && u[r] <= w[r] { assert u[r] <= v[r] <= w[r]; }
  }

  lemma UsesGrowRefl(u: map<nat, seq<nat>>)
    ensures UsesGrow(u, u)
  {
  }

  lemma ScanStart(ts: Arena, reg: set<nat>, links: seq<Link>, table: map<Sig, nat>, pend: set<(nat, nat)>, rest: seq<nat>)
    requires Registered(ts, reg) && ClosedBut(ts, reg, links, table, pend, rest)
    ensures ClosedBut(ts, reg, links, table, pend + PairSet([]), rest) && InducedOk(ts, reg, links, [])
  {
    assert pend + PairSet([]) == pend;
  }

  lemma ScanEnd(ts: Arena, reg: set<nat>, links: seq<Link>, table: map<Sig, nat>, pend: set<(nat, nat)>)
    requires Registered(ts, reg) && ClosedBut(ts, reg, links, table, pend, [])
    ensures Closed(ts, reg, links, table, pend)
  {
  }

  lemma RootsStay(links: seq<Link>, links': seq<Link>, x: nat, y: nat)
    requires links <= links' && Root(links, x) == Root(links, y)
    ensures Root(links', x) == Root(links', y)
  {
    assert links'[..|links|] == links && links'[..|links'|] == links';
    JoinedStays(links', x, y, |links|, |links'|);
  }

  lemma SyncedFacts(parent: map<nat, nat>, adj: Adjacency, table: map<Sig, nat>, diseqs: seq<Disequality>, log: seq<Event>)
    requires Synced(parent, adj, table, diseqs, log)
    ensures ParentsOk(parent, LinksOf(log)) && Mirrors(adj, EdgesOf(log)) && table == TableOf(log) && diseqs == DiseqsOf(log)
  {
  }

  lemma JustifiedFacts(ts: Arena, reg: set<nat>, log: seq<Event>, eqs: set<Equation>)
    requires Registered(ts, reg) && Justified(ts, reg, log, eqs)
    ensures LinksOk(LinksOf(log), reg) && EdgesOk(ts, reg, LinksOf(log), EdgesOf(log), eqs)
    ensures TableOk(ts, reg, LinksOf(log), TableOf(log))
  {
  }

  lemma RegisteredAt(ts: Arena, reg: set<nat>, t: nat)
    requires Registered(ts, reg) && t in reg
    ensures t < |ts|
    ensures ts[t].Apply? ==> forall i :: 0 <= i < |ts[t].args| ==> ts[t].args[i] in reg
  {
  }

  // ---------- registration, before the first link ----------

  ghost predicate Unlinked(log: seq<Event>) { LinksOf(log) == [] && EdgesOf(log) == [] }

  /** The term is on the use lists of its arguments and in the signature table. */
  ghost predicate Done(ts: Arena, reg: set<nat>, table: map<Sig, nat>, uses: map<nat, seq<nat>>, t: nat) {
    t < |ts| && (ts[t].Apply? ==>
      && (forall i :: 0 <= i < |ts[t].args| ==> ts[t].args[i] in reg && t in Get(uses, ts[t].args[i]))
      && Sig(ts[t].f, ts[t].args) in table && table[Sig(ts[t].f, ts[t].args)] == t)
  }

  ghost predicate OwnEntry(ts: Arena, sig: Sig, app: nat) {
    app < |ts| && ts[app].Apply? && sig == Sig(ts[app].f, ts[app].args)
  }

  /** Registration under way: all but the terms in `open` are done. */
  ghost predicate Partial(ts: Arena, reg: set<nat>, table: map<Sig, nat>, uses: map<nat, seq<nat>>, open: set<nat>) {
    && (forall t :: t in reg ==> t < |ts|)
    && (forall t :: t in reg - open ==> Done(ts, reg, table, uses, t))
    && (forall sig :: sig in table ==> table[sig] in reg - open && OwnEntry(ts, sig, table[sig]))
    && (forall r, k :: r in uses && 0 <= k < |uses[r]| ==> uses[r][k] in reg && uses[r][k] < |ts| && ts[uses[r][k]].Apply?)
  }

  lemma RootsAreTerms(ts: Arena, args: seq<nat>)
    ensures Reps([], args) == args
  {
  }

  lemma DoneStays(ts: Arena, reg: set<nat>, reg': set<nat>, table: map<Sig, nat>, table': map<Sig, nat>,
                  uses: map<nat, seq<nat>>, uses': map<nat, seq<nat>>, t: nat)
    requires Done(ts, reg, table, uses, t) && reg <= reg' && UsesGrow(uses, uses')
    requires forall sig :: sig in table ==> sig in table' && table'[sig] == table[sig]
    ensures Done(ts, reg', table', uses', t)
  {
    if ts[t].Apply? {
      forall i | 0 <= i < |ts[t].args| ensures t in Get(uses', ts[t].args[i]) {
        var r := ts[t].args[i];
        assert t in Get(uses, r);
        var k :| 0 <= k < |uses[r]| && uses[r][k] == t;
        assert uses'[r][k] == t;
      }
    }
  }

  lemma PartialOpen(ts: Arena, reg: set<nat>, table: map<Sig, nat>, uses: map<nat, seq<nat>>, open: set<nat>, id: nat)
    requires Partial(ts, reg, table, uses, open) && id < |ts| && id !in reg
    ensures Partial(ts, reg + {id}, table, uses, open + {id})
  {
    forall t | t in reg + {id} - (open + {id}) ensures Done(ts, reg + {id}, table, uses, t) {
      DoneStays(ts, reg, reg + {id}, table, table, uses, uses, t);
    }
  }

  lemma PartialUse(ts: Arena, reg: set<nat>, table: map<Sig, nat>, uses: map<nat, seq<nat>>, open: set<nat>, arg: nat, id: nat)
    requires Partial(ts, reg, table, uses, open) && id in reg && ts[id].Apply?
    ensures Partial(ts, reg, table, Listed(uses, arg, id), open)
    ensures UsesGrow(uses, Listed(uses, arg, id)) && id in Get(Listed(uses, arg, id), arg)
  {
    var uses' := Listed(uses, arg, id);
    assert uses'[arg][|uses'[arg]| - 1] == id;
    forall t | t in reg - open ensures Done(ts, reg, table, uses', t) {
      DoneStays(ts, reg, reg, table, table, uses, uses', t);
    }
  }

  /** No entry for the arguments of an open term: the arena holds no second such application. */
  lemma NoTwin(ts: Arena, reg: set<nat>, table: map<Sig, nat>, uses: map<nat, seq<nat>>, open: set<nat>, id: nat)
    requires ArenaOk(ts) && Partial(ts, reg, table, uses, open) && id in open && id < |ts| && ts[id].Apply?
    ensures Sig(ts[id].f, ts[id].args) !in table
  {
    var sig := Sig(ts[id].f, ts[id].args);
    forall app: nat | OwnEntry(ts, sig, app) ensures app == id {}
  }

  lemma PartialClose(ts: Arena, reg: set<nat>, table: map<Sig, nat>, uses: map<nat, seq<nat>>, open: set<nat>, id: nat)
    requires Partial(ts, reg, table, uses, open + {id}) && id in reg && id !in open && ts[id].Apply?
    requires Sig(ts[id].f, ts[id].args) !in table
    requires forall i :: 0 <= i < |ts[id].args| ==> ts[id].args[i] in reg && id in Get(uses, ts[id].args[i])
    ensures Partial(ts, reg, table[Sig(ts[id].f, ts[id].args) := id], uses, open)
  {
    var table' := table[Sig(ts[id].f, ts[id].args) := id];
    forall t | t in reg - open ensures Done(ts, reg, table', uses, t) {
      if t != id {
        assert t in reg - (open + {id});
        DoneStays(ts, reg, reg, table, table', uses, uses, t);
      }
    }
  }

  lemma PartialCloseLeaf(ts: Arena, reg: set<nat>, table: map<Sig, nat>, uses: map<nat, seq<nat>>, open: set<nat>, id: nat)
    requires Partial(ts, reg, table, uses, open + {id}) && id in reg && !ts[id].Apply?
    ensures Partial(ts, reg, table, uses, open)
  {
    forall t | t in reg - open ensures Done(ts, reg, table, uses, t) {
      if t != id { assert t in reg - (open + {id}); }
    }
  }

  /** Between the public operations, and before the first link, every registered term is done. */
  lemma PartialFromValid(ts: Arena, reg: set<nat>, log: seq<Event>, uses: map<nat, seq<nat>>, eqs: set<Equation>)
    requires Registered(ts, reg) && Justified(ts, reg, log, eqs) && Saturated(ts, reg, log, eqs) && Unlinked(log)
    requires UsesOk(ts, reg, [], uses)
    ensures Partial(ts, reg, TableOf(log), uses, {})
  {
    var table := TableOf(log);
    forall sig | sig in table ensures OwnEntry(ts, sig, table[sig]) && table[sig] in reg {
      var app := table[sig];
      assert EntryOk(ts, reg, [], sig, app);
      forall j | 0 <= j < |sig.reps| ensures sig.reps[j] == ts[app].args[j] {
        assert WasRoot([], ts[app].args[j], sig.reps[j]);
      }
      assert sig.reps == ts[app].args;
    }
    forall t | t in reg ensures Done(ts, reg, table, uses, t) {
      if ts[t].Apply? {
        assert Indexed(ts, [], table, {}, t);
        RootsAreTerms(ts, ts[t].args);
        ConnectedNow([], table[Sig(ts[t].f, ts[t].args)], t);
        forall i | 0 <= i < |ts[t].args| ensures t in Get(uses, ts[t].args[i]) {
          assert Root([], ts[t].args[i]) == ts[t].args[i];
        }
      }
    }
  }

  lemma RegisteredFromPartial(ts: Arena, reg: set<nat>, table: map<Sig, nat>, uses: map<nat, seq<nat>>)
    requires Partial(ts, reg, table, uses, {})
    ensures Registered(ts, reg)
  {
    forall t | t in reg ensures t < |ts| && (ts[t].Apply? ==> forall i :: 0 <= i < |ts[t].args| ==> ts[t].args[i] in reg) {
      assert t in reg - {};
      assert Done(ts, reg, table, uses, t);
    }
  }

  lemma ValidFromPartial(ts: Arena, reg: set<nat>, log: seq<Event>, uses: map<nat, seq<nat>>, eqs: set<Equation>)
    requires Partial(ts, reg, TableOf(log), uses, {}) && Registered(ts, reg) && Unlinked(log)
    requires forall d :: d in DiseqsOf(log) ==> d.a in reg && d.b in reg
    requires forall e :: e in eqs ==> e.a in reg && e.b in reg && e.a == e.b
    ensures Justified(ts, reg, log, eqs) && Saturated(ts, reg, log, eqs) && UsesOk(ts, reg, [], uses)
  {
    var table := TableOf(log);
    forall sig | sig in table ensures EntryOk(ts, reg, [], sig, table[sig]) {
      var app := table[sig];
      assert OwnEntry(ts, sig, app) && app in reg - {};
      forall j | 0 <= j < |sig.reps| ensures WasRoot([], ts[app].args[j], sig.reps[j]) {
        var none: seq<Link> := [];
        assert Root(none[..0], ts[app].args[j]) == sig.reps[j];
      }
    }
    forall t | t in reg && ts[t].Apply? ensures Indexed(ts, [], table, {}, t) {
      assert t in reg - {} && Done(ts, reg, table, uses, t);
      RootsAreTerms(ts, ts[t].args);
      ConnectedNow([], t, t);
    }
    forall t, i | t in reg && ts[t].Apply? && 0 <= i < |ts[t].args|
      ensures Root([], ts[t].args[i]) in uses && t in uses[Root([], ts[t].args[i])]
    {
      assert t in reg - {} && Done(ts, reg, table, uses, t);
      assert t in Get(uses, ts[t].args[i]);
    }
  }

  lemma UnlinkedEquations(ts: Arena, reg: set<nat>, log: seq<Event>, eqs: set<Equation>)
    requires Registered(ts, reg) && Justified(ts, reg, log, eqs) && Saturated(ts, reg, log, eqs) && Unlinked(log)
    ensures forall d :: d in DiseqsOf(log) ==> d.a in reg && d.b in reg
    ensures forall e :: e in eqs ==> e.a in reg && e.b in reg && e.a == e.b
  {
    forall e | e in eqs ensures e.a == e.b { assert Root(LinksOf(log), e.a) == Root(LinksOf(log), e.b); }
  }

  // ---------- what asserting an atom adds ----------

  ghost function NewEquations(ts: Arena, lit: Lit, term: nat): set<Equation>
    requires term < |ts|
  {
    if ts[term].Equals? && |ts[term].args| == 2 && !lit.neg then {Equation(ts[term].args[0], ts[term].args[1], lit)} else {}
  }

  ghost function Row(args: seq<nat>, lit: Lit, i: nat, j: nat): seq<Disequality>
    requires i < |args| && j <= |args|
  {
    if i + 1 < j then Row(args, lit, i, j - 1) + [Disequality(args[i], args[j - 1], lit)] else []
  }

  /** Each pair of different positions, in order. */
  ghost function Rows(args: seq<nat>, lit: Lit, i: nat): seq<Disequality>
    requires i <= |args|
  {
    if i == 0 then [] else Rows(args, lit, i - 1) + Row(args, lit, i - 1, |args|)
  }

  ghost function NewDiseqs(ts: Arena, lit: Lit, term: nat): seq<Disequality>
    requires term < |ts|
  {
    match ts[term]
    case Equals(args) => if |args| == 2 && lit.neg then [Disequality(args[0], args[1], lit)] else []
    case Distinct(args) => Rows(args, lit, |args|)
    case _ => []
  }

  lemma RowStep(args: seq<nat>, lit: Lit, i: nat, j: nat)
    requires i < j <= |args|
    ensures Row(args, lit, i, j) == if i + 1 < j then Row(args, lit, i, j - 1) + [Disequality(args[i], args[j - 1], lit)] else []
  {
  }

  lemma RowsStep(args: seq<nat>, lit: Lit, i: nat)
    requires i <= |args|
    ensures Rows(args, lit, i) == if i == 0 then [] else Rows(args, lit, i - 1) + Row(args, lit, i - 1, |args|)
  {
  }

  lemma NewAtoms(ts: Arena, lit: Lit, term: nat)
    requires term < |ts|
    ensures NewEquations(ts, lit, term) == if ts[term].Equals? && |ts[term].args| == 2 && !lit.neg
                                           then {Equation(ts[term].args[0], ts[term].args[1], lit)} else {}
    ensures NewDiseqs(ts, lit, term) == if ts[term].Equals? && |ts[term].args| == 2 && lit.neg
                                        then [Disequality(ts[term].args[0], ts[term].args[1], lit)]
                                        else if ts[term].Distinct? then Rows(ts[term].args, lit, |ts[term].args|) else []
  {
  }

  // ---------- consistency ----------

  ghost predicate Separates(r: Rel, ds: seq<Disequality>) {
    forall d :: d in ds ==> (d.a, d.b) !in r
  }

  ghost predicate Consistent(ts: Arena, reg: set<nat>, eqs: set<Equation>, ds: seq<Disequality>)
    requires Registered(ts, reg)
  {
    exists r: Rel :: Congruence(ts, reg, r) && Contains(r, eqs) && Separates(r, ds)
  }

  /** The rows whose literals are true hold of the terms. */
  ghost predicate Respects(m: Valuation, r: Rel, eqs: set<Equation>, ds: seq<Disequality>) {
    && (forall e :: e in eqs && Holds(m, e.lit) ==> (e.a, e.b) in r)
    && (forall d :: d in ds && Holds(m, d.lit) ==> (d.a, d.b) !in r)
  }

  /** Read row by row, no congruence makes all literals of the clause false. What the rows have to do
      with the atoms they were made from is another matter: `EufMeaning` says. */
  ghost predicate EufValid(ts: Arena, reg: set<nat>, eqs: set<Equation>, ds: seq<Disequality>, c: seq<Lit>)
    requires Registered(ts, reg)
  {
    forall m: Valuation, r: Rel :: Congruence(ts, reg, r) && Respects(m, r, eqs, ds) ==> SatClause(m, c)
  }

  ghost predicate Falsified(eqs: set<Equation>, ds: seq<Disequality>, c: seq<Lit>) {
    forall l :: l in c ==> (exists e :: e in eqs && e.lit.Not() == l) || (exists d :: d in ds && d.lit.Not() == l)
  }

  lemma ConflictIsValid(ts: Arena, reg: set<nat>, eqs: set<Equation>, ds: seq<Disequality>, c: seq<Lit>, d: Disequality)
    requires Registered(ts, reg) && d in ds && Explained(ts, reg, eqs, c, d.a, d.b) && FromEquations(eqs, c)
    ensures EufValid(ts, reg, eqs, ds, c + [d.lit.Not()]) && !Consistent(ts, reg, eqs, ds)
    ensures Falsified(eqs, ds, c + [d.lit.Not()])
  {
    var cl := c + [d.lit.Not()];
    forall m: Valuation, r: Rel | Congruence(ts, reg, r) && Respects(m, r, eqs, ds) ensures SatClause(m, cl) {
      if Contains(r, Used(eqs, c)) {
        assert (d.a, d.b) in r;
        HoldsNot(m, d.lit);
        assert d.lit.Not() in cl;
      } else {
        var e :| e in Used(eqs, c) && (e.a, e.b) !in r;
        HoldsNot(m, e.lit);
        assert e.lit.Not() in cl;
      }
    }
    forall r: Rel | Congruence(ts, reg, r) && Contains(r, eqs) ensures !Separates(r, ds) {
      assert Contains(r, Used(eqs, c));
      assert (d.a, d.b) in r;
    }
  }

  lemma RepresentativesConsistent(ts: Arena, reg: set<nat>, log: seq<Event>, eqs: set<Equation>, ds: seq<Disequality>)
    requires Registered(ts, reg) && Saturated(ts, reg, log, eqs)
    requires forall d :: d in ds ==> Root(LinksOf(log), d.a) != Root(LinksOf(log), d.b)
    ensures Consistent(ts, reg, eqs, ds)
  {
    var r := Kernel(LinksOf(log));
    ClosedIsCongruence(ts, reg, LinksOf(log), TableOf(log));
    assert Contains(r, eqs) && Separates(r, ds);
  }

  /** Disequality `k` is the first whose sides the equations make equal, and the clause explains why. */
  ghost predicate ConflictAt(ts: Arena, reg: set<nat>, eqs: set<Equation>, ds: seq<Disequality>, k: nat, clause: seq<Lit>)
    requires Registered(ts, reg)
  {
    && k < |ds| && |clause| > 0 && (forall j :: 0 <= j < k ==> !Entailed(ts, reg, eqs, ds[j].a, ds[j].b))
    && var n := |clause| - 1;
       clause[n] == ds[k].lit.Not() && FromEquations(eqs, clause[..n]) && Explained(ts, reg, eqs, clause[..n], ds[k].a, ds[k].b)
  }

  lemma ConflictAtIntro(ts: Arena, reg: set<nat>, eqs: set<Equation>, ds: seq<Disequality>, k: nat, c: seq<Lit>)
    requires Registered(ts, reg) && k < |ds| && (forall j :: 0 <= j < k ==> !Entailed(ts, reg, eqs, ds[j].a, ds[j].b))
    requires FromEquations(eqs, c) && Explained(ts, reg, eqs, c, ds[k].a, ds[k].b)
    ensures ConflictAt(ts, reg, eqs, ds, k, c + [ds[k].lit.Not()])
  {
    assert (c + [ds[k].lit.Not()])[..|c|] == c;
  }

  datatype Verdict = NoConflict | Conflict(clause: seq<Lit>)

  lemma UnlinkedFacts(log: seq<Event>)
    ensures Unlinked(log) <==> LinksOf(log) == [] && EdgesOf(log) == []
  {
  }

  lemma NoLinks(reg: set<nat>)
    ensures LinksOk([], reg)
  {
  }

  lemma ParentsNew(parent: map<nat, nat>, id: nat)
    requires ParentsOk(parent, [])
    ensures ParentsOk(parent[id := id], [])
  {
  }

  lemma SyncedIntro(parent: map<nat, nat>, adj: Adjacency, table: map<Sig, nat>, diseqs: seq<Disequality>, log: seq<Event>)
    requires ParentsOk(parent, LinksOf(log)) && Mirrors(adj, EdgesOf(log)) && table == TableOf(log) && diseqs == DiseqsOf(log)
    ensures Synced(parent, adj, table, diseqs, log)
  {
  }

  lemma ArgsBefore(ts: Arena, id: nat)
    requires ArenaOk(ts) && id < |ts| && ts[id].Apply?
    ensures forall i :: 0 <= i < |ts[id].args| ==> ts[id].args[i] < id
  {
  }

  lemma SigBefore(ts: Arena, id: nat)
    requires id < |ts| && ts[id].Apply?
    ensures SigOf(ts, [], id) == Sig(ts[id].f, ts[id].args)
  {
    RootsAreTerms(ts, ts[id].args);
  }

  lemma UserStays(uses: map<nat, seq<nat>>, uses': map<nat, seq<nat>>, r: nat, t: nat)
    requires UsesGrow(uses, uses') && t in Get(uses, r)
    ensures t in Get(uses', r)
  {
    var k :| 0 <= k < |uses[r]| && uses[r][k] == t;
    assert uses'[r][k] == t;
  }

  lemma LookupUnlinked(parent: map<nat, nat>, adj: Adjacency, table: map<Sig, nat>, diseqs: seq<Disequality>, log: seq<Event>,
                       undo: seq<UndoAction>, sig: Sig, app: nat)
    requires Synced(parent, adj, table, diseqs, log) && Undoable(log, undo) && Unlinked(log) && sig !in table
    ensures Synced(parent, adj, table[sig := app], diseqs, log + [Lookup(sig, app)])
    ensures Undoable(log + [Lookup(sig, app)], undo + [AddLookup(sig, None)]) && Unlinked(log + [Lookup(sig, app)])
    ensures DiseqsOf(log + [Lookup(sig, app)]) == DiseqsOf(log)
  {
    hide LinksOf, EdgesOf, TableOf, DiseqsOf, Mirrors, ParentsOk;
    LogAppend(log, Lookup(sig, app));
    assert (log + [Lookup(sig, app)])[..|log|] == log;
    UndoableAppend(log, undo, Lookup(sig, app), AddLookup(sig, None));
  }

  lemma DiffersLogged(ts: Arena, parent: map<nat, nat>, adj: Adjacency, table: map<Sig, nat>, diseqs: seq<Disequality>, log: seq<Event>,
                      undo: seq<UndoAction>, eqs: set<Equation>, d: Disequality)
    requires Registered(ts, parent.Keys) && Synced(parent, adj, table, diseqs, log) && Undoable(log, undo)
    requires Justified(ts, parent.Keys, log, eqs) && Saturated(ts, parent.Keys, log, eqs) && d.a in parent && d.b in parent
    ensures Synced(parent, adj, table, diseqs + [d], log + [Differs(d)]) && Undoable(log + [Differs(d)], undo + [AddDisequality])
    ensures Justified(ts, parent.Keys, log + [Differs(d)], eqs) && Saturated(ts, parent.Keys, log + [Differs(d)], eqs)
    ensures LinksOf(log + [Differs(d)]) == LinksOf(log) && (Unlinked(log + [Differs(d)]) <==> Unlinked(log))
  {
    hide LinksOf, EdgesOf, TableOf, DiseqsOf, Mirrors, ParentsOk, LinksOk, EdgesOk, TableOk, Closed, Registered;
    LogAppend(log, Differs(d));
    UndoableAppend(log, undo, Differs(d), AddDisequality);
  }

  lemma ClosedMore(ts: Arena, reg: set<nat>, log: seq<Event>, table: map<Sig, nat>, eqs: set<Equation>, a: nat, b: nat)
    requires Registered(ts, reg) && Saturated(ts, reg, log, eqs) && table == TableOf(log)
    ensures Closed(ts, reg, LinksOf(log), table, {} + {(a, b)})
  {
    var links := LinksOf(log);
    forall t | t in reg && ts[t].Apply? ensures Indexed(ts, links, table, {} + {(a, b)}, t) {
      assert Indexed(ts, links, table, {}, t);
    }
  }

  lemma JustifiedMore(ts: Arena, reg: set<nat>, log: seq<Event>, eqs: set<Equation>, eq: Equation)
    requires Registered(ts, reg) && Justified(ts, reg, log, eqs) && eq.a in reg && eq.b in reg
    ensures Justified(ts, reg, log, eqs + {eq})
  {
    var links, edges := LinksOf(log), EdgesOf(log);
    forall i | 0 <= i < |links| ensures EdgeOk(ts, reg, links, edges[i], i, eqs + {eq}) {
      assert EdgeOk(ts, reg, links, edges[i], i, eqs);
    }
  }

  lemma SaturatedMore(ts: Arena, reg: set<nat>, log: seq<Event>, log': seq<Event>, table: map<Sig, nat>, eqs: set<Equation>, eq: Equation)
    requires Registered(ts, reg) && Saturated(ts, reg, log, eqs) && LinksOf(log) <= LinksOf(log') && table == TableOf(log')
    requires Closed(ts, reg, LinksOf(log'), table, {}) && Root(LinksOf(log'), eq.a) == Root(LinksOf(log'), eq.b)
    ensures Saturated(ts, reg, log', eqs + {eq})
  {
    forall e | e in eqs + {eq} ensures Root(LinksOf(log'), e.a) == Root(LinksOf(log'), e.b) {
      if e in eqs { RootsStay(LinksOf(log), LinksOf(log'), e.a, e.b); }
    }
  }

  lemma UndoableFacts(log: seq<Event>, undo: seq<UndoAction>)
    requires Undoable(log, undo)
    ensures |log| == |undo|
  {
  }

  lemma UndoesAt(log: seq<Event>, undo: seq<UndoAction>, i: nat)
    requires Undoable(log, undo) && i < |log|
    ensures |log| == |undo| && Undoes(log, i, undo[i])
    ensures undo[i].UndoLink? ==> undo[i].oldParent == undo[i].child
  {
  }

  lemma MarksPush(ts: Arena, reg: set<nat>, log: seq<Event>, scopes: seq<nat>, frames: seq<Frame>, uses: map<nat, seq<nat>>, fr: Frame)
    requires Registered(ts, reg) && MarksOk(ts, reg, log, scopes, frames, uses)
    requires fr.parent.Keys == reg && Synced(fr.parent, fr.adj, fr.table, fr.diseqs, log)
    requires Justified(ts, reg, log, fr.asserted) && Saturated(ts, reg, log, fr.asserted) && UsesOk(ts, reg, LinksOf(log), uses)
    ensures MarksOk(ts, reg, log, scopes + [|log|], frames + [fr], uses)
  {
    hide Registered, Justified, Saturated, Synced, UsesOk, LinksOf;
    var scopes', frames' := scopes + [|log|], frames + [fr];
    forall i | 0 <= i < |scopes'| ensures MarkOk(ts, reg, log[..scopes'[i]], frames'[i], uses) {
      if i < |scopes| {
        assert MarkOk(ts, reg, log[..scopes[i]], frames[i], uses);
      } else {
        assert log[..|log|] == log;
      }
    }
  }

  lemma MarksFacts(ts: Arena, reg: set<nat>, log: seq<Event>, scopes: seq<nat>, frames: seq<Frame>, uses: map<nat, seq<nat>>)
    requires Registered(ts, reg) && MarksOk(ts, reg, log, scopes, frames, uses)
    ensures |scopes| == |frames|
    ensures |scopes| > 0 ==> scopes[|scopes| - 1] <= |log| && MarkOk(ts, reg, log[..scopes[|scopes| - 1]], frames[|scopes| - 1], uses)
  {
  }

  lemma MarkFacts(ts: Arena, reg: set<nat>, log: seq<Event>, fr: Frame, uses: map<nat, seq<nat>>)
    requires Registered(ts, reg) && MarkOk(ts, reg, log, fr, uses)
    ensures fr.parent.Keys == reg && Synced(fr.parent, fr.adj, fr.table, fr.diseqs, log)
    ensures Justified(ts, reg, log, fr.asserted) && Saturated(ts, reg, log, fr.asserted) && UsesOk(ts, reg, LinksOf(log), uses)
  {
  }

  lemma MarksPop(ts: Arena, reg: set<nat>, log: seq<Event>, scopes: seq<nat>, frames: seq<Frame>, uses: map<nat, seq<nat>>)
    requires Registered(ts, reg) && MarksOk(ts, reg, log, scopes, frames, uses) && |scopes| > 0
    ensures scopes[|scopes| - 1] <= |log|
    ensures MarksOk(ts, reg, log[..scopes[|scopes| - 1]], scopes[..|scopes| - 1], frames[..|scopes| - 1], uses)
  {
    hide Registered, Justified, Saturated, Synced, UsesOk, LinksOf;
    var n := |scopes| - 1;
    var low := log[..scopes[n]];
    forall i | 0 <= i < n ensures MarkOk(ts, reg, low[..scopes[i]], frames[i], uses) {
      assert scopes[i] <= scopes[n];
      assert low[..scopes[i]] == log[..scopes[i]];
      assert MarkOk(ts, reg, log[..scopes[i]], frames[i], uses);
    }
  }

  /** The log determines the tables. */
  lemma SameTables(parent: map<nat, nat>, adj: Adjacency, table: map<Sig, nat>, diseqs: seq<Disequality>, fr: Frame, log: seq<Event>,
                   reg: set<nat>)
    requires Synced(parent, adj, table, diseqs, log) && Synced(fr.parent, fr.adj, fr.table, fr.diseqs, log)
    requires parent.Keys == reg && fr.parent.Keys == reg
    ensures parent == fr.parent && table == fr.table && diseqs == fr.diseqs
    ensures forall t: nat :: Get(adj, t) == Get(fr.adj, t)
  {
    forall t: nat ensures Get(adj, t) == Get(fr.adj, t) {
      assert Get(adj, t) == AdjList(EdgesOf(log), t);
    }
  }

  lemma UndoneChild(parent: map<nat, nat>, u: UndoAction)
    ensures u.UndoLink? ==> u.child in UndoParent(parent, u)
  {
  }

  lemma DiseqsIn(ts: Arena, reg: set<nat>, log: seq<Event>, eqs: set<Equation>)
    requires Registered(ts, reg) && Justified(ts, reg, log, eqs)
    ensures forall d :: d in DiseqsOf(log) ==> d.a in reg && d.b in reg
  {
  }

  class EufSolver {
    const arena: Arena
    var parent: map<nat, nat>
    var rank: map<nat, nat>
    var proofAdj: Adjacency
    var useList: map<nat, seq<nat>>
    var sigLookup: map<Sig, nat>
    var disequalities: seq<Disequality>
    var undoTrail: seq<UndoAction>
    var scopes: seq<nat>
    ghost var log: seq<Event>
    ghost var asserted: set<Equation>
    ghost var frames: seq<Frame>

    constructor (arena: Arena)
      requires ArenaOk(arena)
      ensures this.arena == arena && Valid()
      ensures parent == map[] && log == [] && scopes == [] && frames == [] && asserted == {} && disequalities == []
      ensures forall t: nat :: t < |arena| ==> Ready(t)
    {
      this.arena := arena;
      parent, rank, proofAdj, useList, sigLookup := map[], map[], map[], map[], map[];
      disequalities, undoTrail, scopes := [], [], [];
      log, asserted, frames := [], {}, [];
    }

    ghost function Links(): seq<Link>
      reads this
    {
      LinksOf(log)
    }

    /** All that holds whenever a method of the engine may be called from inside `Merge`. */
    ghost predicate Base()
      reads this
    {
      && ArenaOk(arena) && Registered(arena, parent.Keys) && rank.Keys == parent.Keys
      && Synced(parent, proofAdj, sigLookup, disequalities, log) && Undoable(log, undoTrail)
      && Justified(arena, parent.Keys, log, asserted)
      && UsesOk(arena, parent.Keys, Links(), useList)
    }

    ghost predicate Valid()
      reads this
    {
      && Base()
      && Saturated(arena, parent.Keys, log, asserted)
      && MarksOk(arena, parent.Keys, log, scopes, frames, useList)
    }

    lemma BaseFacts()
      requires Base()
      ensures ArenaOk(arena) && Registered(arena, parent.Keys) && rank.Keys == parent.Keys
      ensures Synced(parent, proofAdj, sigLookup, disequalities, log) && Undoable(log, undoTrail)
      ensures ParentsOk(parent, LinksOf(log)) && Mirrors(proofAdj, EdgesOf(log))
      ensures sigLookup == TableOf(log) && disequalities == DiseqsOf(log)
      ensures Justified(arena, parent.Keys, log, asserted)
      ensures LinksOk(LinksOf(log), parent.Keys) && EdgesOk(arena, parent.Keys, LinksOf(log), EdgesOf(log), asserted)
      ensures UsesOk(arena, parent.Keys, LinksOf(log), useList) && UsersOk(arena, parent.Keys, useList)
    {
      UsersOfUses(arena, parent.Keys, LinksOf(log), useList);
    }

    lemma BaseIntro()
      requires ArenaOk(arena) && Registered(arena, parent.Keys) && rank.Keys == parent.Keys
      requires Synced(parent, proofAdj, sigLookup, disequalities, log) && Undoable(log, undoTrail)
      requires Justified(arena, parent.Keys, log, asserted)
      requires UsesOk(arena, parent.Keys, LinksOf(log), useList)
      ensures Base()
    {
    }

    /** Follows parent pointers to the representative. */
    method Find(t0: nat) returns (t: nat)
      requires ParentsOk(parent, LinksOf(log)) && LinksOk(LinksOf(log), parent.Keys)
      ensures t == Root(LinksOf(log), t0)
    {
      hide *;
      ghost var links := LinksOf(log);
      t := t0;
      while t in parent && parent[t] != t
        invariant Root(links, t) == Root(links, t0)
        decreases |links| - LinkTime(links, t)
      {
        FindStep(parent, links, t);
        t := parent[t];
      }
      FindStops(parent, links, t);
    }

    /** The signature of an application: its function and the representatives of its arguments. */
    method ComputeSig(app: nat) returns (sig: Sig)
      requires ParentsOk(parent, LinksOf(log)) && LinksOk(LinksOf(log), parent.Keys)
      requires app < |arena| && arena[app].Apply?
      ensures sig == SigOf(arena, LinksOf(log), app)
    {
      var args := arena[app].args;
      var reps := [];
      var i := 0;
      while i < |args|
        invariant i <= |args| && |reps| == i
        invariant forall k :: 0 <= k < i ==> reps[k] == Root(LinksOf(log), args[k])
      {
        var r := Find(args[i]);
        reps := reps + [r];
        i := i + 1;
      }
      assert reps == Reps(LinksOf(log), args);
      sig := Sig(arena[app].f, reps);
    }

    /** Adds the proof edge and hangs the representative of lower rank under the other. */
    method LinkRoots(a: nat, b: nat, reason: Option<Lit>, rootA: nat, rootB: nat) returns (child: nat, top: nat)
      requires Base() && a in parent && b in parent
      requires rootA == Root(LinksOf(log), a) && rootB == Root(LinksOf(log), b) && rootA != rootB
      requires reason.Some? ==> Equation(a, b, reason.value) in asserted
      requires reason == None ==> a < |arena| && b < |arena| && SameUpTo(arena, a, b, Kernel(LinksOf(log)))
      modifies this`proofAdj, this`undoTrail, this`rank, this`parent, this`log
      ensures {child, top} == {rootA, rootB}
      ensures log == old(log) + [Edge(ProofEdge(a, b, reason)), Linked(Link(child, top))]
      ensures parent.Keys == old(parent.Keys) && rank.Keys == parent.Keys && Registered(arena, parent.Keys)
      ensures Synced(parent, proofAdj, sigLookup, disequalities, log) && Undoable(log, undoTrail)
      ensures Justified(arena, parent.Keys, log, asserted)
      ensures LinksOf(log) == LinksOf(old(log)) + [Link(child, top)]
      ensures Root(LinksOf(old(log)), top) == top
    {
      hide *;
      BaseFacts();
      ghost var links := LinksOf(log);
      RootIffNoParent(links, parent.Keys, a);
      RootIffNoParent(links, parent.Keys, b);
      RegisteredAt(arena, parent.Keys, a);
      RegisteredAt(arena, parent.Keys, b);
      proofAdj := Listed(proofAdj, a, (b, reason));
      proofAdj := Listed(proofAdj, b, (a, reason));
      undoTrail := undoTrail + [RemoveProofEdge(a, b)];
      var rankA, rankB := rank[rootA], rank[rootB];
      top, child := rootA, rootB;
      if rankA < rankB { top, child := rootB, rootA; }
      var oldParent, oldRank := parent[child], rank[top];
      ParentsAt(parent, links, child);
      RootIffNoParent(links, parent.Keys, child);
      parent := parent[child := top];
      if rankA == rankB { rank := rank[top := oldRank + 1]; }
      undoTrail := undoTrail + [UndoLink(child, oldParent, oldRank)];
      assert parent.Keys == old(parent.Keys) && rank.Keys == old(rank.Keys);
      ghost var e, l := ProofEdge(a, b, reason), Link(child, top);
      assert {Root(links, e.a), Root(links, e.b)} == {l.child, l.parent};
      log := log + [Edge(e), Linked(l)];
      assert undoTrail == old(undoTrail) + [RemoveProofEdge(a, b), UndoLink(child, child, oldRank)];
      LinkedSynced(old(parent), old(proofAdj), sigLookup, disequalities, old(log), old(undoTrail), e, l, oldRank);
      JustifiedAfterLink(arena, parent.Keys, old(log), asserted, e, l, log);
    }

    /** Looks at the applications the child was an argument of: those that now collide with an
        entry are induced merges, the others get an entry. */
    method ScanUses(childUses: seq<nat>, ghost pend: set<(nat, nat)>) returns (induced: seq<(nat, nat)>)
      requires Registered(arena, parent.Keys)
      requires Synced(parent, proofAdj, sigLookup, disequalities, log) && Undoable(log, undoTrail)
      requires Justified(arena, parent.Keys, log, asserted)
      requires forall k :: 0 <= k < |childUses| ==> childUses[k] in parent && childUses[k] < |arena| && arena[childUses[k]].Apply?
      requires ClosedBut(arena, parent.Keys, LinksOf(log), sigLookup, pend, childUses)
      modifies this`sigLookup, this`undoTrail, this`log
      ensures Synced(parent, proofAdj, sigLookup, disequalities, log) && Undoable(log, undoTrail)
      ensures Justified(arena, parent.Keys, log, asserted)
      ensures old(log) <= log && LinksOf(log) == LinksOf(old(log))
      ensures Closed(arena, parent.Keys, LinksOf(log), sigLookup, pend + PairSet(induced))
      ensures InducedOk(arena, parent.Keys, LinksOf(log), induced)
    {
      hide *;
      induced := [];
      ghost var reg, links := parent.Keys, LinksOf(log);
      ScanStart(arena, reg, links, sigLookup, pend, childUses);
      assert childUses[0..] == childUses;
      var i := 0;
      while i < |childUses|
        invariant i <= |childUses|
        invariant Synced(parent, proofAdj, sigLookup, disequalities, log) && Undoable(log, undoTrail)
        invariant Justified(arena, parent.Keys, log, asserted)
        invariant old(log) <= log && LinksOf(log) == links
        invariant ClosedBut(arena, reg, links, sigLookup, pend + PairSet(induced), childUses[i..])
        invariant InducedOk(arena, reg, links, induced)
      {
        var app := childUses[i];
        ghost var induced0, table0, rest := induced, sigLookup, childUses[i + 1..];
        assert childUses[i..] == [app] + rest;
        SyncedFacts(parent, proofAdj, sigLookup, disequalities, log);
        JustifiedFacts(arena, reg, log, asserted);
        var sig := ComputeSig(app);
        if sig in sigLookup {
          var other := sigLookup[sig];
          EntryCurrent(arena, reg, links, sigLookup, app);
          RegisteredAt(arena, reg, other);
          var r1 := Find(other);
          var r2 := Find(app);
          if other != app && r1 != r2 {
            induced := induced + [(other, app)];
            InducedMore(arena, reg, links, induced0, (other, app));
          }
        } else {
          LookupSynced(arena, parent, proofAdj, sigLookup, disequalities, log, undoTrail, asserted, app, sig);
          sigLookup := sigLookup[sig := app];
          undoTrail := undoTrail + [AddLookup(sig, None)];
          log := log + [Lookup(sig, app)];
        }
        UseStep(arena, reg, links, table0, pend + PairSet(induced0), app, rest, sigLookup, pend + PairSet(induced));
        i := i + 1;
      }
      assert childUses[i..] == [];
      ScanEnd(arena, reg, links, sigLookup, pend + PairSet(induced));
    }

    /** Joins the classes of `a` and `b` and then of all applications this makes congruent. */
    method Merge(a: nat, b: nat, reason: Option<Lit>, ghost pend: set<(nat, nat)>)
      requires Base() && a in parent && b in parent
      requires Closed(arena, parent.Keys, LinksOf(log), sigLookup, pend + {(a, b)})
      requires reason.Some? ==> Equation(a, b, reason.value) in asserted
      requires reason == None ==> a < |arena| && b < |arena| && SameUpTo(arena, a, b, Kernel(LinksOf(log)))
      modifies this`parent, this`rank, this`proofAdj, this`useList, this`sigLookup, this`undoTrail, this`log
      ensures Base() && parent.Keys == old(parent.Keys)
      ensures Closed(arena, parent.Keys, LinksOf(log), sigLookup, pend)
      ensures Root(LinksOf(log), a) == Root(LinksOf(log), b)
      ensures old(log) <= log && LinksOf(old(log)) <= LinksOf(log) && UsesGrow(old(useList), useList)
      decreases |parent.Keys| - |LinksOf(log)|, 0
    {
      hide *;
      ghost var reg, links := parent.Keys, LinksOf(log);
      BaseFacts();
      var rootA := Find(a);
      var rootB := Find(b);
      if rootA == rootB {
        DropPending(arena, reg, links, sigLookup, pend, a, b);
        UsesGrowRefl(useList);
        return;
      }
      var induced := LinkAndScan(a, b, reason, rootA, rootB, pend);
      ghost var links1, uses1 := LinksOf(log), useList;
      LinksBounded(links1, reg);
      MergeInduced(induced, pend);
      UsesGrowTrans(old(useList), uses1, useList);
      RootsStay(links1, LinksOf(log), a, b);
      LinksOfPrefix(log, |old(log)|);
      assert log[..|old(log)|] == old(log);
    }

    /** Links the representatives, looks at the child's applications and joins the use lists. */
    method LinkAndScan(a: nat, b: nat, reason: Option<Lit>, rootA: nat, rootB: nat, ghost pend: set<(nat, nat)>)
      returns (induced: seq<(nat, nat)>)
      requires Base() && a in parent && b in parent
      requires rootA == Root(LinksOf(log), a) && rootB == Root(LinksOf(log), b) && rootA != rootB
      requires Closed(arena, parent.Keys, LinksOf(log), sigLookup, pend + {(a, b)})
      requires reason.Some? ==> Equation(a, b, reason.value) in asserted
      requires reason == None ==> a < |arena| && b < |arena| && SameUpTo(arena, a, b, Kernel(LinksOf(log)))
      modifies this`parent, this`rank, this`proofAdj, this`useList, this`sigLookup, this`undoTrail, this`log
      ensures Base() && parent.Keys == old(parent.Keys) && LinksOk(LinksOf(log), parent.Keys)
      ensures Closed(arena, parent.Keys, LinksOf(log), sigLookup, pend + PairSet(induced))
      ensures InducedOk(arena, parent.Keys, LinksOf(log), induced)
      ensures Root(LinksOf(log), a) == Root(LinksOf(log), b)
      ensures old(log) <= log && |LinksOf(log)| == |LinksOf(old(log))| + 1 && UsesGrow(old(useList), useList)
    {
      hide *;
      ghost var reg, links := parent.Keys, LinksOf(log);
      BaseFacts();
      var child, top := LinkRoots(a, b, reason, rootA, rootB);
      ghost var l := Link(child, top);
      AfterLink(arena, reg, links, l, sigLookup, pend, useList, a, b);
      var childUses := Get(useList, child);
      UsersAt(arena, reg, useList, child);
      induced := ScanUses(childUses, pend);
      UsesAfterLink(arena, reg, links, l, useList);
      UsesGrowOnce(useList, top, childUses);
      useList := useList[top := Get(useList, top) + childUses];
      BaseIntro();
      JustifiedFacts(arena, reg, log, asserted);
      RootAppend(links, l, a);
      RootAppend(links, l, b);
      PairMembers(rootA, rootB, child, top);
    }

    /** Merges the induced pairs in turn. */
    method MergeInduced(induced: seq<(nat, nat)>, ghost pend: set<(nat, nat)>)
      requires Base() && InducedOk(arena, parent.Keys, LinksOf(log), induced)
      requires Closed(arena, parent.Keys, LinksOf(log), sigLookup, pend + PairSet(induced))
      modifies this`parent, this`rank, this`proofAdj, this`useList, this`sigLookup, this`undoTrail, this`log
      ensures Base() && parent.Keys == old(parent.Keys)
      ensures Closed(arena, parent.Keys, LinksOf(log), sigLookup, pend)
      ensures old(log) <= log && LinksOf(old(log)) <= LinksOf(log) && UsesGrow(old(useList), useList)
      decreases |parent.Keys| - |LinksOf(log)|, 1
    {
      hide *;
      ghost var reg, links1 := parent.Keys, LinksOf(log);
      BaseFacts();
      UsesGrowRefl(useList);
      assert induced[0..] == induced;
      var i := 0;
      while i < |induced|
        invariant i <= |induced| && Base() && parent.Keys == reg
        invariant Closed(arena, reg, LinksOf(log), sigLookup, pend + PairSet(induced[i..]))
        invariant InducedOk(arena, reg, links1, induced) && links1 <= LinksOf(log)
        invariant old(log) <= log && UsesGrow(old(useList), useList)
      {
        var (f1, f2) := induced[i];
        ghost var uses1 := useList;
        BaseFacts();
        LinksBounded(LinksOf(log), reg);
        InducedStay(arena, reg, links1, LinksOf(log), induced);
        InducedAt(arena, reg, LinksOf(log), induced, i);
        PairSetSplit(induced, i);
        assert pend + PairSet(induced[i..]) == pend + PairSet(induced[i + 1..]) + {(f1, f2)};
        Merge(f1, f2, None, pend + PairSet(induced[i + 1..]));
        UsesGrowTrans(old(useList), uses1, useList);
        i := i + 1;
      }
      NoPairs(induced[i..]);
      assert pend + PairSet(induced[i..]) == pend;
    }

    // ---------- explanations ----------

    ghost predicate RootsEqual(k: nat, t: nat, u: nat)
      reads this
      requires k <= |LinksOf(log)|
    {
      Root(LinksOf(log)[..k], t) == Root(LinksOf(log)[..k], u)
    }

    /** Walks the search tree back from `target`, collecting what each edge rests on. */
    method WalkBack(start: nat, target: nat, visited: Visited, conflict0: seq<Lit>, pairs0: set<(nat, nat)>,
                    ghost t: Tree, ghost k: nat)
      returns (conflict: seq<Lit>, pairs: set<(nat, nat)>)
      requires Base() && k <= |LinksOf(log)| && RootsEqual(k, start, target) && start != target
      requires TreeOk(EdgesOf(log), t) && Recorded(EdgesOf(log), t, visited) && t.order[0] == start && target in visited
      requires PairsOk(arena, parent.Keys, LinksOf(log), asserted, pairs0, conflict0, k)
      requires FromEquations(asserted, conflict0)
      ensures (forall l :: l in conflict0 ==> l in conflict) && FromEquations(asserted, conflict)
      ensures Explained(arena, parent.Keys, asserted, conflict, start, target)
      ensures NewExplained(arena, parent.Keys, asserted, pairs0 + {(start, target)}, pairs, conflict)
      ensures NewRest(arena, EdgesOf(log), conflict0, conflict, start, target)
      decreases k, 1
    {
      hide *;
      BaseFacts();
      ghost var reg, links, edges := parent.Keys, LinksOf(log), EdgesOf(log);
      ghost var last := PositionOf(edges, t, visited, target);
      conflict, pairs := conflict0, pairs0 + {(start, target)};
      RootsEqualIs(k, start, target);
      WalkStep(edges, t, visited, 0);
      WalkIsOlder(arena, reg, links, edges, asserted, t, last, k);
      WalkNeedsYoungest(arena, reg, links, edges, asserted, t, last);
      ghost var youngest: nat := Youngest(edges, t, last);
      PairsStay(arena, reg, links, asserted, pairs0, conflict0, conflict0, k, youngest);
      PairsAdd(arena, reg, links, asserted, pairs0, conflict0, youngest, start, target);
      NewExplainedNone(arena, reg, asserted, pairs, conflict);
      ExplainedEquivalence(arena, reg, asserted, conflict, target, target, target);
      var curr := target;
      ghost var j: nat := last;
      WalkOnStart(edges, t, last);
      NewRestNone(arena, edges, conflict, start, target);
      WalkStep(edges, t, visited, j);
      while curr in visited && visited[curr].Some?
        invariant j < |t.order| && curr == t.order[j] && Youngest(edges, t, j) <= youngest
        invariant (forall l :: l in conflict0 ==> l in conflict) && FromEquations(asserted, conflict)
        invariant Explained(arena, reg, asserted, conflict, curr, target)
        invariant PairsOk(arena, reg, links, asserted, pairs, conflict, youngest)
        invariant NewExplained(arena, reg, asserted, pairs0 + {(start, target)}, pairs, conflict)
        invariant curr in visited && (visited[curr] == None <==> j == 0)
        invariant WalkOn(edges, t, j, last) && NewRest(arena, edges, conflict0, conflict, start, target)
        decreases j
      {
        WalkStep(edges, t, visited, j);
        var (prev, reason) := visited[curr].value;
        ghost var via := t.via[j];
        ghost var conflict1, pairs1 := conflict, pairs;
        JoinsSym(edges, via, prev, curr);
        EdgeGround(arena, reg, links, edges, asserted, via, curr, prev);
        if reason.Some? {
          conflict := conflict + [reason.value.Not()];
          FromEquationsMore(asserted, conflict1, curr, prev, reason.value);
          ExplainedByLiteral(arena, reg, asserted, conflict, prev, curr, reason.value);
          NewExplainedNone(arena, reg, asserted, pairs, conflict);
          NewRestLiteral(arena, edges, t, j, last, conflict0, conflict1, reason.value);
        } else if arena[curr].Apply? && arena[prev].Apply? && arena[curr].f == arena[prev].f && |arena[curr].args| == |arena[prev].args| {
          PairsStay(arena, reg, links, asserted, pairs, conflict, conflict, youngest, via);
          conflict, pairs := ExplainArgs(curr, prev, conflict, pairs, via);
          ExplainedEquivalence(arena, reg, asserted, conflict, curr, prev, curr);
          NewRestCongruence(arena, edges, t, j, last, conflict0, conflict1, conflict);
        }
        NewExplainedChain(arena, reg, asserted, pairs0 + {(start, target)}, pairs1, pairs, conflict1, conflict);
        PairsGrow(arena, reg, links, asserted, pairs1, pairs, conflict1, conflict, youngest);
        ExplainedMore(arena, reg, asserted, conflict1, conflict, curr, target);
        ExplainedEquivalence(arena, reg, asserted, conflict, prev, curr, target);
        curr := prev;
        WalkOnBack(edges, t, j, last);
        j := t.prev[j];
        WalkStep(edges, t, visited, j);
      }
    }

    /** Explains the arguments of a congruence edge pairwise, with edges older than it. */
    method ExplainArgs(curr: nat, prev: nat, conflict0: seq<Lit>, pairs0: set<(nat, nat)>, ghost via: nat)
      returns (conflict: seq<Lit>, pairs: set<(nat, nat)>)
      requires Base() && via <= |LinksOf(log)| && curr in parent && prev in parent && curr < |arena| && prev < |arena|
      requires arena[curr].Apply? && arena[prev].Apply? && arena[curr].f == arena[prev].f && |arena[curr].args| == |arena[prev].args|
      requires forall i :: 0 <= i < |arena[curr].args| ==>
        && arena[curr].args[i] in parent && arena[prev].args[i] in parent
        && Root(LinksOf(log)[..via], arena[curr].args[i]) == Root(LinksOf(log)[..via], arena[prev].args[i])
      requires PairsOk(arena, parent.Keys, LinksOf(log), asserted, pairs0, conflict0, via)
      requires FromEquations(asserted, conflict0)
      ensures (forall l :: l in conflict0 ==> l in conflict) && FromEquations(asserted, conflict)
      ensures Explained(arena, parent.Keys, asserted, conflict, curr, prev)
      ensures NewExplained(arena, parent.Keys, asserted, pairs0, pairs, conflict)
      ensures NewRestArgs(arena, EdgesOf(log), conflict0, conflict, curr, prev)
      decreases via + 1, 0
    {
      hide *;
      BaseFacts();
      ghost var reg, links := parent.Keys, LinksOf(log);
      conflict, pairs := conflict0, pairs0;
      NewExplainedNone(arena, reg, asserted, pairs, conflict);
      NewRestArgsNone(arena, EdgesOf(log), conflict, curr, prev);
      var i := 0;
      while i < |arena[curr].args|
        invariant i <= |arena[curr].args|
        invariant (forall l :: l in conflict0 ==> l in conflict) && FromEquations(asserted, conflict)
        invariant NewExplained(arena, reg, asserted, pairs0, pairs, conflict)
        invariant PairsOk(arena, reg, links, asserted, pairs, conflict, via)
        invariant NewRestArgs(arena, EdgesOf(log), conflict0, conflict, curr, prev)
        invariant forall k :: 0 <= k < i ==> Explained(arena, reg, asserted, conflict, arena[curr].args[k], arena[prev].args[k])
      {
        ghost var conflict1, pairs1 := conflict, pairs;
        RootsEqualIs(via, arena[curr].args[i], arena[prev].args[i]);
        conflict, pairs := ExplainRec(arena[curr].args[i], arena[prev].args[i], conflict, pairs, via);
        NewRestArgsMore(arena, EdgesOf(log), conflict0, conflict1, conflict, curr, prev, i);
        NewExplainedChain(arena, reg, asserted, pairs0, pairs1, pairs, conflict1, conflict);
        PairsGrow(arena, reg, links, asserted, pairs1, pairs, conflict1, conflict, via);
        forall m | 0 <= m < i ensures Explained(arena, reg, asserted, conflict, arena[curr].args[m], arena[prev].args[m]) {
          ExplainedMore(arena, reg, asserted, conflict1, conflict, arena[curr].args[m], arena[prev].args[m]);
        }
        i := i + 1;
      }
      ExplainedCongruent(arena, reg, asserted, conflict, curr, prev);
    }

    /** One pair: nothing to do when it is trivial or was seen, else search and walk back. `k` bounds
        the age of the edges: the pair was equal before link `k`, or `k` is now. */
    method ExplainRec(start: nat, target: nat, conflict0: seq<Lit>, pairs0: set<(nat, nat)>, ghost k: nat)
      returns (conflict: seq<Lit>, pairs: set<(nat, nat)>)
      requires Base() && start in parent && target in parent
      requires k <= |LinksOf(log)| && (RootsEqual(k, start, target) || k == |LinksOf(log)|)
      requires PairsOk(arena, parent.Keys, LinksOf(log), asserted, pairs0, conflict0, k)
      requires FromEquations(asserted, conflict0)
      ensures (forall l :: l in conflict0 ==> l in conflict) && FromEquations(asserted, conflict)
      ensures RootsEqual(k, start, target) ==>
        && Explained(arena, parent.Keys, asserted, conflict, start, target)
        && NewExplained(arena, parent.Keys, asserted, pairs0, pairs, conflict)
      ensures !RootsEqual(k, start, target) ==> conflict == conflict0
      ensures NewRest(arena, EdgesOf(log), conflict0, conflict, start, target)
      decreases k, 2
    {
      hide *;
      BaseFacts();
      ghost var reg, links, edges := parent.Keys, LinksOf(log), EdgesOf(log);
      conflict, pairs := conflict0, pairs0;
      NewRestNone(arena, edges, conflict0, start, target);
      RootsEqualIs(k, start, target);
      if start == target || (start, target) in pairs {
        ExplainedEquivalence(arena, reg, asserted, conflict, start, start, start);
        NewExplainedNone(arena, reg, asserted, pairs, conflict);
        if (start, target) in pairs && RootsEqual(k, start, target) {
          PairSeen(arena, reg, links, asserted, pairs, conflict, k, start, target);
        }
        return;
      }
      EdgesIn(arena, reg, links, edges, asserted);
      var visited;
      ghost var t;
      visited, t := Search(proofAdj, start, target, edges, reg);
      if target in visited {
        ghost var j := PositionOf(edges, t, visited, target);
        TreeInClass(arena, reg, links, edges, asserted, t, j);
        assert links[..|links|] == links;
        conflict, pairs := WalkBack(start, target, visited, conflict, pairs, t, k);
        NewExplainedOne(arena, reg, asserted, pairs0, pairs, conflict, start, target);
      } else {
        pairs := pairs + {(start, target)};
        if RootsEqual(k, start, target) {
          JoinedStays(links, start, target, k, |links|);
          assert links[..|links|] == links;
          SearchComplete(arena, reg, links, edges, asserted, t, visited, target);
        }
      }
    }

    lemma RootsEqualIs(k: nat, t: nat, u: nat)
      requires k <= |LinksOf(log)|
      ensures RootsEqual(k, t, u) <==> Root(LinksOf(log)[..k], t) == Root(LinksOf(log)[..k], u)
    {
    }

    /** The sorted negations of the literals of asserted equations that already entail the equality, all
        of them reasons of edges on the way between the terms or, below congruences, their arguments. */
    method Explain(start: nat, target: nat) returns (conflict: seq<Lit>)
      requires Base() && start in parent && target in parent
      ensures FromEquations(asserted, conflict) && StrictlySorted(conflict)
      ensures forall l :: l in conflict ==> Rests(arena, EdgesOf(log), start, target, l)
      ensures Root(LinksOf(log), start) == Root(LinksOf(log), target) ==>
        Explained(arena, parent.Keys, asserted, conflict, start, target)
      ensures Root(LinksOf(log), start) != Root(LinksOf(log), target) ==> conflict == []
    {
      ghost var links := LinksOf(log);
      assert links[..|links|] == links;
      var found, pairs := ExplainRec(start, target, [], {}, |links|);
      conflict := SortDedup(found);
      if Root(links, start) == Root(links, target) {
        ExplainedMore(arena, parent.Keys, asserted, found, conflict, start, target);
      }
    }

    // ---------- registration ----------

    /** Registers a term and, first, its arguments. `open` are the terms whose registration is under way. */
    method RegisterTerm(id: nat, ghost open: set<nat>)
      requires ArenaOk(arena) && id < |arena| && rank.Keys == parent.Keys && Unlinked(log)
      requires Synced(parent, proofAdj, sigLookup, disequalities, log) && Undoable(log, undoTrail)
      requires Partial(arena, parent.Keys, sigLookup, useList, open)
      requires forall o :: o in open ==> id < o
      modifies this`parent, this`rank, this`useList, this`sigLookup, this`undoTrail, this`log
      ensures rank.Keys == parent.Keys && Unlinked(log) && DiseqsOf(log) == DiseqsOf(old(log))
      ensures Synced(parent, proofAdj, sigLookup, disequalities, log) && Undoable(log, undoTrail)
      ensures Partial(arena, parent.Keys, sigLookup, useList, open)
      ensures id in parent && old(parent.Keys) <= parent.Keys && UsesGrow(old(useList), useList)
      decreases id, 1
    {
      hide *;
      UsesGrowRefl(useList);
      if id in parent { return; }
      SyncedFacts(parent, proofAdj, sigLookup, disequalities, log);
      UnlinkedFacts(log);
      ParentsNew(parent, id);
      PartialOpen(arena, parent.Keys, sigLookup, useList, open, id);
      parent := parent[id := id];
      rank := rank[id := 0];
      assert parent.Keys == old(parent.Keys) + {id} && rank.Keys == parent.Keys;
      SyncedIntro(parent, proofAdj, sigLookup, disequalities, log);
      if arena[id].Apply? {
        RegisterArgs(id, open + {id});
        SyncedFacts(parent, proofAdj, sigLookup, disequalities, log);
        UnlinkedFacts(log);
        NoLinks(parent.Keys);
        var sig := ComputeSig(id);
        SigBefore(arena, id);
        NoTwin(arena, parent.Keys, sigLookup, useList, open + {id}, id);
        if sig in sigLookup {
          // the merge of two equal applications: a hash-consed arena has none
          assert false;
        } else {
          PartialClose(arena, parent.Keys, sigLookup, useList, open, id);
          LookupUnlinked(parent, proofAdj, sigLookup, disequalities, log, undoTrail, sig, id);
          sigLookup := sigLookup[sig := id];
          undoTrail := undoTrail + [AddLookup(sig, None)];
          log := log + [Lookup(sig, id)];
        }
      } else {
        PartialCloseLeaf(arena, parent.Keys, sigLookup, useList, open, id);
      }
    }

    /** Registers the arguments of an application and puts it on their use lists. */
    method RegisterArgs(id: nat, ghost open: set<nat>)
      requires ArenaOk(arena) && id < |arena| && arena[id].Apply? && rank.Keys == parent.Keys && Unlinked(log)
      requires Synced(parent, proofAdj, sigLookup, disequalities, log) && Undoable(log, undoTrail)
      requires Partial(arena, parent.Keys, sigLookup, useList, open) && id in parent
      requires forall o :: o in open ==> id <= o
      modifies this`parent, this`rank, this`useList, this`sigLookup, this`undoTrail, this`log
      ensures rank.Keys == parent.Keys && Unlinked(log) && DiseqsOf(log) == DiseqsOf(old(log))
      ensures Synced(parent, proofAdj, sigLookup, disequalities, log) && Undoable(log, undoTrail)
      ensures Partial(arena, parent.Keys, sigLookup, useList, open)
      ensures id in parent && old(parent.Keys) <= parent.Keys && UsesGrow(old(useList), useList)
      ensures forall k :: 0 <= k < |arena[id].args| ==> arena[id].args[k] in parent && id in Get(useList, arena[id].args[k])
      decreases id, 0
    {
      hide *;
      UsesGrowRefl(useList);
      var args := arena[id].args;
      ArgsBefore(arena, id);
      var i := 0;
      while i < |args|
        invariant i <= |args| && id in parent && old(parent.Keys) <= parent.Keys
        invariant rank.Keys == parent.Keys && Unlinked(log) && DiseqsOf(log) == DiseqsOf(old(log))
        invariant Synced(parent, proofAdj, sigLookup, disequalities, log) && Undoable(log, undoTrail)
        invariant Partial(arena, parent.Keys, sigLookup, useList, open)
        invariant UsesGrow(old(useList), useList)
        invariant forall k :: 0 <= k < i ==> args[k] in parent && id in Get(useList, args[k])
      {
        ghost var uses0 := useList;
        RegisterTerm(args[i], open);
        ghost var uses1 := useList;
        PartialUse(arena, parent.Keys, sigLookup, useList, open, args[i], id);
        useList := Listed(useList, args[i], id);
        UsesGrowTrans(uses0, uses1, useList);
        UsesGrowTrans(old(useList), uses0, useList);
        forall k | 0 <= k < i ensures id in Get(useList, args[k]) { UserStays(uses0, useList, args[k], id); }
        i := i + 1;
      }
    }

    /** A term may be asserted about when it is registered, or can still be: before the first link
        and outside every scope. */
    ghost predicate Ready(t: nat)
      reads this
    {
      t < |arena| && (t in parent || (Unlinked(log) && scopes == []))
    }

    method Register(id: nat)
      requires Valid() && Ready(id)
      modifies this`parent, this`rank, this`useList, this`sigLookup, this`undoTrail, this`log
      ensures Valid() && id in parent && old(parent.Keys) <= parent.Keys
      ensures forall t :: old(Ready(t)) ==> Ready(t)
      ensures disequalities == old(disequalities)
    {
      if id in parent { return; }
      ghost var log0, reg0 := log, parent.Keys;
      assert LinksOf(log) == [];
      PartialFromValid(arena, parent.Keys, log, useList, asserted);
      UnlinkedEquations(arena, parent.Keys, log, asserted);
      RegisterTerm(id, {});
      RegisteredFromPartial(arena, parent.Keys, sigLookup, useList);
      ValidFromPartial(arena, parent.Keys, log, useList, asserted);
    }

    // ---------- asserting, push, pop ----------

    lemma ValidIntro()
      requires Base() && Saturated(arena, parent.Keys, log, asserted)
      requires MarksOk(arena, parent.Keys, log, scopes, frames, useList)
      ensures Valid()
    {
    }

    lemma ValidFacts()
      requires Valid()
      ensures Base() && Saturated(arena, parent.Keys, log, asserted)
      ensures MarksOk(arena, parent.Keys, log, scopes, frames, useList)
    {
    }

    /** A positive equality: its classes and all that follows are joined. */
    method AssertEqual(a: nat, b: nat, lit: Lit)
      requires Valid() && a in parent && b in parent
      modifies this`parent, this`rank, this`proofAdj, this`useList, this`sigLookup, this`undoTrail, this`log, this`asserted
      ensures Valid() && parent.Keys == old(parent.Keys)
      ensures asserted == old(asserted) + {Equation(a, b, lit)}
    {
      hide *;
      ValidFacts();
      BaseFacts();
      ghost var eq, reg, uses0 := Equation(a, b, lit), parent.Keys, useList;
      ClosedMore(arena, reg, log, sigLookup, asserted, a, b);
      JustifiedMore(arena, reg, log, asserted, eq);
      asserted := asserted + {eq};
      BaseIntro();
      Merge(a, b, Some(lit), {});
      BaseFacts();
      SaturatedMore(arena, reg, old(log), log, sigLookup, old(asserted), eq);
      MarksStay(arena, reg, old(log), log, scopes, frames, uses0, useList);
      ValidIntro();
    }

    method AssertDiffers(a: nat, b: nat, lit: Lit)
      requires Valid() && a in parent && b in parent
      modifies this`disequalities, this`undoTrail, this`log
      ensures Valid() && disequalities == old(disequalities) + [Disequality(a, b, lit)]
      ensures forall t :: old(Ready(t)) ==> Ready(t)
    {
      hide *;
      ValidFacts();
      BaseFacts();
      var d := Disequality(a, b, lit);
      ReadyIntro();
      DiffersLogged(arena, parent, proofAdj, sigLookup, disequalities, log, undoTrail, asserted, d);
      disequalities := disequalities + [d];
      undoTrail := undoTrail + [AddDisequality];
      log := log + [Differs(d)];
      BaseIntro();
      UsesGrowRefl(useList);
      MarksStay(arena, parent.Keys, old(log), log, scopes, frames, useList, useList);
      ValidIntro();
      ReadyIntro();
    }

    lemma ReadyHere(t: nat)
      requires Valid() && t in parent
      ensures Ready(t)
    {
      RegisteredAt(arena, parent.Keys, t);
    }

    lemma ReadyIntro()
      ensures forall t: nat :: Ready(t) <==> t < |arena| && (t in parent || (Unlinked(log) && scopes == []))
    {
    }

    /** All pairs of different positions become unequal. */
    method AssertDistinct(args: seq<nat>, lit: Lit)
      requires Valid() && forall i :: 0 <= i < |args| ==> Ready(args[i])
      modifies this`parent, this`rank, this`useList, this`sigLookup, this`disequalities, this`undoTrail, this`log
      ensures Valid() && old(parent.Keys) <= parent.Keys
      ensures disequalities == old(disequalities) + Rows(args, lit, |args|)
    {
      hide *;
      RowsStep(args, lit, 0);
      var i := 0;
      while i < |args|
        invariant i <= |args| && Valid() && old(parent.Keys) <= parent.Keys
        invariant disequalities == old(disequalities) + Rows(args, lit, i)
        invariant forall k :: 0 <= k < |args| ==> Ready(args[k])
      {
        var j := i + 1;
        RowStep(args, lit, i, j);
        while j < |args|
          invariant i < j <= |args| && Valid() && old(parent.Keys) <= parent.Keys
          invariant disequalities == old(disequalities) + Rows(args, lit, i) + Row(args, lit, i, j)
          invariant forall k :: 0 <= k < |args| ==> Ready(args[k])
        {
          Register(args[i]);
          Register(args[j]);
          AssertDiffers(args[i], args[j], lit);
          j := j + 1;
          RowStep(args, lit, i, j);
        }
        i := i + 1;
        RowsStep(args, lit, i);
      }
    }

    /** The rows of an equality, by the sign of its literal, or of a distinctness, whatever the sign. */
    method AssertTerm(lit: Lit, term: nat)
      requires Valid() && term < |arena|
      requires (arena[term].Equals? || arena[term].Distinct?) ==> forall i :: 0 <= i < |arena[term].args| ==> Ready(arena[term].args[i])
      modifies this`parent, this`rank, this`proofAdj, this`useList, this`sigLookup, this`disequalities, this`undoTrail, this`log,
               this`asserted
      ensures Valid() && old(parent.Keys) <= parent.Keys
      ensures asserted == old(asserted) + NewEquations(arena, lit, term)
      ensures disequalities == old(disequalities) + NewDiseqs(arena, lit, term)
    {
      hide *;
      NewAtoms(arena, lit, term);
      match arena[term]
      case Equals(args) =>
        if |args| == 2 {
          Register(args[0]);
          Register(args[1]);
          if !lit.neg {
            AssertEqual(args[0], args[1], lit);
          } else {
            AssertDiffers(args[0], args[1], lit);
          }
        }
      case Distinct(args) =>
        AssertDistinct(args, lit);
      case _ =>
    }

    /** Opens a scope. */
    method Push()
      requires Valid()
      modifies this`scopes, this`frames
      ensures Valid() && scopes == old(scopes) + [|log|]
      ensures frames == old(frames) + [Frame(asserted, parent, proofAdj, sigLookup, disequalities)]
    {
      hide *;
      ValidFacts();
      BaseFacts();
      ghost var fr := Frame(asserted, parent, proofAdj, sigLookup, disequalities);
      UndoableFacts(log, undoTrail);
      MarksPush(arena, parent.Keys, log, scopes, frames, useList, fr);
      scopes := scopes + [|undoTrail|];
      frames := frames + [fr];
      BaseSame();
      ValidIntro();
    }

    lemma BaseSame()
      requires ArenaOk(arena) && Registered(arena, parent.Keys) && rank.Keys == parent.Keys
      requires Synced(parent, proofAdj, sigLookup, disequalities, log) && Undoable(log, undoTrail)
      requires Justified(arena, parent.Keys, log, asserted)
      requires UsesOk(arena, parent.Keys, LinksOf(log), useList)
      ensures Base()
    {
    }

    /** Closes the innermost scope: representatives, signature table, disequalities and proof graph
        are again what `Push` saw. Use lists are left as they are, and the saved rank is written to
        the former child. */
    method Pop()
      requires Valid()
      modifies this`parent, this`rank, this`proofAdj, this`sigLookup, this`disequalities, this`undoTrail, this`scopes, this`log,
               this`asserted, this`frames
      ensures Valid() && parent.Keys == old(parent.Keys)
      ensures old(scopes) == [] ==> scopes == [] && frames == old(frames) && log == old(log) && asserted == old(asserted) && disequalities == old(disequalities)
      ensures old(scopes) != [] ==>
        && |old(frames)| == |old(scopes)|
        && scopes == old(scopes[..|scopes| - 1]) && frames == old(frames[..|frames| - 1])
        && var fr := old(frames[|frames| - 1]);
           asserted == fr.asserted && parent == fr.parent && sigLookup == fr.table && disequalities == fr.diseqs
           && forall t: nat :: Get(proofAdj, t) == Get(fr.adj, t)
    {
      hide *;
      ValidFacts();
      MarksFacts(arena, parent.Keys, log, scopes, frames, useList);
      if |scopes| > 0 {
        BaseFacts();
        var n := |scopes| - 1;
        ghost var reg := parent.Keys;
        ghost var fr := frames[n];
        var target := scopes[n];
        assert old(log)[..|log|] == log;
        while |undoTrail| > target
          invariant target <= |undoTrail| == |log| <= |old(log)| && log == old(log)[..|log|]
          invariant scopes == old(scopes) && frames == old(frames)
          invariant parent.Keys == reg && rank.Keys == reg && LinksOk(LinksOf(log), reg)
          invariant Synced(parent, proofAdj, sigLookup, disequalities, log) && Undoable(log, undoTrail)
          decreases |undoTrail|
        {
          UndoStep();
        }
        assert old(log)[..target] == log;
        MarkFacts(arena, reg, log, fr, useList);
        asserted := fr.asserted;
        SameTables(parent, proofAdj, sigLookup, disequalities, fr, log, reg);
        BaseSame();
        MarksPop(arena, reg, old(log), scopes, frames, useList);
        scopes := scopes[..n];
        frames := frames[..n];
        BaseSame();
        ValidIntro();
      }
    }

    /** Takes back the youngest action. */
    method UndoStep()
      requires |undoTrail| > 0 && Undoable(log, undoTrail)
      requires Synced(parent, proofAdj, sigLookup, disequalities, log) && LinksOk(LinksOf(log), parent.Keys) && rank.Keys == parent.Keys
      modifies this`parent, this`rank, this`proofAdj, this`sigLookup, this`disequalities, this`undoTrail, this`log
      ensures log == old(log)[..|old(log)| - 1] && Undoable(log, undoTrail)
      ensures Synced(parent, proofAdj, sigLookup, disequalities, log) && LinksOk(LinksOf(log), parent.Keys)
      ensures parent.Keys == old(parent.Keys) && rank.Keys == parent.Keys && |undoTrail| == |log|
    {
      hide *;
      UndoableFacts(log, undoTrail);
      var n := |undoTrail| - 1;
      var u := undoTrail[n];
      ghost var log0 := log[..n];
      UndoesAt(log, undoTrail, n);
      assert log == log0 + [log[n]];
      UndoYoungest(parent, proofAdj, sigLookup, disequalities, log0, log[n], u, parent.Keys);
      UndoneChild(parent, u);
      UndoablePrefix(log, undoTrail, n);
      undoTrail := undoTrail[..n];
      log := log0;
      parent := UndoParent(parent, u);
      if u.UndoLink? { rank := rank[u.oldParent := u.oldRank]; }
      proofAdj := UndoAdj(proofAdj, u);
      sigLookup := UndoTable(sigLookup, u);
      disequalities := UndoDiseqs(disequalities, u);
    }

    // ---------- answers ----------

    /** Equal representatives are exactly what the asserted equalities entail. */
    lemma FindDecides(a: nat, b: nat)
      requires Valid()
      ensures Root(LinksOf(log), a) == Root(LinksOf(log), b) <==> Entailed(arena, parent.Keys, asserted, a, b)
    {
      ExactlyCongruenceClosure(arena, parent.Keys, LinksOf(log), EdgesOf(log), sigLookup, asserted, a, b);
    }

    /** A disequality whose sides are equal is a conflict; without one the state is consistent. */
    method Check() returns (v: Verdict, ghost at: nat)
      requires Valid()
      ensures v.NoConflict? <==> Consistent(arena, parent.Keys, asserted, disequalities)
      ensures v.Conflict? ==> EufValid(arena, parent.Keys, asserted, disequalities, v.clause)
      ensures v.Conflict? ==> Falsified(asserted, disequalities, v.clause)
      ensures v.Conflict? ==> ConflictAt(arena, parent.Keys, asserted, disequalities, at, v.clause)
      ensures v.Conflict? ==> at < |disequalities| && forall l :: l in v.clause ==>
        l == disequalities[at].lit.Not() || Rests(arena, EdgesOf(log), disequalities[at].a, disequalities[at].b, l)
    {
      hide *;
      ValidFacts();
      BaseFacts();
      DiseqsIn(arena, parent.Keys, log, asserted);
      at := 0;
      var i := 0;
      while i < |disequalities|
        invariant i <= |disequalities|
        invariant forall k :: 0 <= k < i ==> Root(LinksOf(log), disequalities[k].a) != Root(LinksOf(log), disequalities[k].b)
      {
        var d := disequalities[i];
        var ra := Find(d.a);
        var rb := Find(d.b);
        if ra == rb {
          var conflict := Explain(d.a, d.b);
          ConflictIsValid(arena, parent.Keys, asserted, disequalities, conflict, d);
          forall j | 0 <= j < i ensures !Entailed(arena, parent.Keys, asserted, disequalities[j].a, disequalities[j].b) {
            FindDecides(disequalities[j].a, disequalities[j].b);
          }
          ConflictAtIntro(arena, parent.Keys, asserted, disequalities, i, conflict);
          assert forall l :: l in conflict + [d.lit.Not()] ==> l in conflict || l == d.lit.Not();
          return Conflict(conflict + [d.lit.Not()]), i;
        }
        i := i + 1;
      }
      RepresentativesConsistent(arena, parent.Keys, log, asserted, disequalities);
      v := NoConflict;
    }
  }

  lemma NoPairs(ps: seq<(nat, nat)>)
    ensures |ps| == 0 ==> PairSet(ps) == {}
  {
  }

  lemma ParentsAt(parent: map<nat, nat>, links: seq<Link>, t: nat)
    requires ParentsOk(parent, links) && t in parent
    ensures parent[t] == ParentOf(links, t)
  {
  }

  lemma InducedAt(ts: Arena, reg: set<nat>, links: seq<Link>, ps: seq<(nat, nat)>, i: nat)
    requires Registered(ts, reg) && InducedOk(ts, reg, links, ps) && i < |ps|
    ensures ps[i].0 in reg && ps[i].1 in reg && SameUpTo(ts, ps[i].0, ps[i].1, Kernel(links))
  {
  }

  lemma JoinsSym(edges: seq<ProofEdge>, i: nat, x: nat, y: nat)
    requires Joins(edges, i, x, y)
    ensures Joins(edges, i, y, x)
  {
  }

  lemma EdgesIn(ts: Arena, reg: set<nat>, links: seq<Link>, edges: seq<ProofEdge>, eqs: set<Equation>)
    requires Registered(ts, reg) && EdgesOk(ts, reg, links, edges, eqs)
    ensures forall i :: 0 <= i < |edges| ==> edges[i].a in reg && edges[i].b in reg
  {
    forall i | 0 <= i < |edges| ensures edges[i].a in reg && edges[i].b in reg {
      assert EdgeOk(ts, reg, links, edges[i], i, eqs);
    }
  }

  // ---------- whole runs ----------

  datatype Step = Assert(lit: Lit, term: nat) | OpenScope | CloseScope

  /** The equalities and disequalities in force, and those in force where each open scope began. */
  datatype Live = Live(eqs: set<Equation>, diseqs: seq<Disequality>, saved: seq<(set<Equation>, seq<Disequality>)>)

  ghost predicate StepOk(ts: Arena, terms: seq<nat>, s: Step) {
    s.Assert? ==> s.term < |ts| && (!ts[s.term].Other? ==> forall i :: 0 <= i < |ts[s.term].args| ==> ts[s.term].args[i] in terms)
  }

  ghost function StepLive(ts: Arena, live: Live, s: Step): Live
    requires s.Assert? ==> s.term < |ts|
  {
    match s
    case Assert(lit, term) => live.(eqs := live.eqs + NewEquations(ts, lit, term), diseqs := live.diseqs + NewDiseqs(ts, lit, term))
    case OpenScope => live.(saved := live.saved + [(live.eqs, live.diseqs)])
    case CloseScope =>
      if live.saved == [] then live
      else
        var n := |live.saved| - 1;
        Live(live.saved[n].0, live.saved[n].1, live.saved[..n])
  }

  ghost function LiveAfter(ts: Arena, terms: seq<nat>, steps: seq<Step>): Live
    requires forall k :: 0 <= k < |steps| ==> StepOk(ts, terms, steps[k])
    decreases |steps|
  {
    if steps == [] then Live({}, [], [])
    else
      var n := |steps| - 1;
      assert StepOk(ts, terms, steps[n]);
      StepLive(ts, LiveAfter(ts, terms, steps[..n]), steps[n])
  }

  ghost predicate SavedAs(frames: seq<Frame>, saved: seq<(set<Equation>, seq<Disequality>)>) {
    |frames| == |saved| && forall i :: 0 <= i < |frames| ==> frames[i].asserted == saved[i].0 && frames[i].diseqs == saved[i].1
  }

  lemma StepFacts(ts: Arena, terms: seq<nat>, steps: seq<Step>, i: nat)
    requires i < |steps| && forall k :: 0 <= k < |steps| ==> StepOk(ts, terms, steps[k])
    ensures forall k :: 0 <= k < |steps[..i]| ==> StepOk(ts, terms, steps[..i][k])
    ensures (var next := steps[..i + 1]; forall k :: 0 <= k < |next| ==> StepOk(ts, terms, next[k]))
    ensures steps[i].Assert? ==> steps[i].term < |ts|
    ensures LiveAfter(ts, terms, steps[..i + 1]) == StepLive(ts, LiveAfter(ts, terms, steps[..i]), steps[i])
    ensures var t := steps[i]; t.Assert? && !ts[t.term].Other? ==>
      forall k :: 0 <= k < |ts[t.term].args| ==> ts[t.term].args[k] in terms
  {
    assert steps[..i + 1][..i] == steps[..i];
    assert StepOk(ts, terms, steps[i]);
  }

  lemma SavedPush(frames: seq<Frame>, saved: seq<(set<Equation>, seq<Disequality>)>, fr: Frame)
    requires SavedAs(frames, saved)
    ensures SavedAs(frames + [fr], saved + [(fr.asserted, fr.diseqs)])
  {
  }

  lemma SavedPop(frames: seq<Frame>, saved: seq<(set<Equation>, seq<Disequality>)>)
    requires SavedAs(frames, saved)
    ensures |frames| == |saved|
    ensures |frames| > 0 ==>
      var n := |frames| - 1;
      saved[n] == (frames[n].asserted, frames[n].diseqs) && SavedAs(frames[..n], saved[..n])
  {
    if |frames| > 0 { assert saved[|frames| - 1].0 == frames[|frames| - 1].asserted; }
  }

  lemma LiveSteps(ts: Arena, live: Live, s: Step)
    requires s.Assert? ==> s.term < |ts|
    ensures s.Assert? ==> (StepLive(ts, live, s) ==
      Live(live.eqs + NewEquations(ts, s.lit, s.term), live.diseqs + NewDiseqs(ts, s.lit, s.term), live.saved))
    ensures s.OpenScope? ==> StepLive(ts, live, s) == Live(live.eqs, live.diseqs, live.saved + [(live.eqs, live.diseqs)])
    ensures s.CloseScope? ==> (StepLive(ts, live, s) ==
      if live.saved == [] then live
      else Live(live.saved[|live.saved| - 1].0, live.saved[|live.saved| - 1].1, live.saved[..|live.saved| - 1]))
  {
  }

  lemma NoneSaved(ts: Arena, terms: seq<nat>)
    ensures LiveAfter(ts, terms, []) == Live({}, [], []) && SavedAs([], [])
  {
  }

  method RegisterAll(s: EufSolver, terms: seq<nat>)
    requires s.Valid() && forall k :: 0 <= k < |terms| ==> s.Ready(terms[k])
    modifies s`parent, s`rank, s`useList, s`sigLookup, s`undoTrail, s`log
    ensures s.Valid() && s.disequalities == old(s.disequalities) && forall k :: 0 <= k < |terms| ==> terms[k] in s.parent
  {
    hide *;
    var i := 0;
    while i < |terms|
      invariant i <= |terms| && s.Valid() && s.disequalities == old(s.disequalities)
      invariant forall k :: 0 <= k < |terms| ==> s.Ready(terms[k])
      invariant forall k :: 0 <= k < i ==> terms[k] in s.parent
    {
      s.Register(terms[i]);
      i := i + 1;
    }
  }

  method Replay(s: EufSolver, terms: seq<nat>, steps: seq<Step>)
    requires s.Valid() && s.asserted == {} && s.disequalities == [] && s.scopes == [] && s.frames == []
    requires forall k :: 0 <= k < |terms| ==> terms[k] in s.parent
    requires forall k :: 0 <= k < |steps| ==> StepOk(s.arena, terms, steps[k])
    modifies s
    ensures s.Valid()
    ensures s.asserted == LiveAfter(s.arena, terms, steps).eqs && s.disequalities == LiveAfter(s.arena, terms, steps).diseqs
    ensures forall k :: 0 <= k < |terms| ==> terms[k] in s.parent
  {
    hide *;
    NoneSaved(s.arena, terms);
    assert steps[..0] == [];
    var i := 0;
    ghost var live := Live({}, [], []);
    while i < |steps|
      invariant i <= |steps| && s.Valid() && (forall k :: 0 <= k < |terms| ==> terms[k] in s.parent)
      invariant forall k :: 0 <= k < |steps[..i]| ==> StepOk(s.arena, terms, steps[..i][k])
      invariant live == LiveAfter(s.arena, terms, steps[..i]) && s.asserted == live.eqs && s.disequalities == live.diseqs
      invariant |s.frames| == |s.scopes| && SavedAs(s.frames, live.saved)
    {
      StepFacts(s.arena, terms, steps, i);
      LiveSteps(s.arena, live, steps[i]);
      SavedPop(s.frames, live.saved);
      SavedPush(s.frames, live.saved, Frame(s.asserted, s.parent, s.proofAdj, s.sigLookup, s.disequalities));
      ghost var before := live;
      live := StepLive(s.arena, live, steps[i]);
      match steps[i] {
      case Assert(lit, term) =>
        forall k | !s.arena[term].Other? && 0 <= k < |s.arena[term].args| ensures s.Ready(s.arena[term].args[k]) {
          s.ReadyHere(s.arena[term].args[k]);
        }
        s.AssertTerm(lit, term);
      case OpenScope => s.Push();
      case CloseScope => s.Pop();
      }
      i := i + 1;
    }
    assert steps[..i] == steps;
  }

  /** Registers the terms, then asserts, pushes and pops at will: two terms have one representative
      exactly when the equalities still in force entail that they are equal. */
  method Run(ts: Arena, terms: seq<nat>, steps: seq<Step>) returns (s: EufSolver)
    requires ArenaOk(ts) && forall k :: 0 <= k < |terms| ==> terms[k] < |ts|
    requires forall k :: 0 <= k < |steps| ==> StepOk(ts, terms, steps[k])
    ensures fresh(s) && s.arena == ts && s.Valid() && forall k :: 0 <= k < |terms| ==> terms[k] in s.parent
    ensures s.asserted == LiveAfter(ts, terms, steps).eqs && s.disequalities == LiveAfter(ts, terms, steps).diseqs
    ensures forall a: nat, b: nat :: Root(LinksOf(s.log), a) == Root(LinksOf(s.log), b) <==>
      Entailed(ts, s.parent.Keys, LiveAfter(ts, terms, steps).eqs, a, b)
  {
    hide EufSolver.Valid, LiveAfter, Root, Entailed, StepOk;
    s := new EufSolver(ts);
    RegisterAll(s, terms);
    Replay(s, terms, steps);
    s.ValidFacts();
    s.BaseFacts();
    forall a: nat, b: nat
      ensures Root(LinksOf(s.log), a) == Root(LinksOf(s.log), b) <==> Entailed(ts, s.parent.Keys, s.asserted, a, b)
    {
      s.FindDecides(a, b);
    }
  }
}
