/** The undo trail of the equality engine as a log of events, and what the tables of the engine
    are after each prefix of it. */
module EventLog {
  import opened Lits
  import opened CongruenceModel
  import opened ProofForest

  datatype Event =
    | Edge(edge: ProofEdge)
    | Linked(link: Link)
    | Lookup(sig: Sig, app: nat)
    | Differs(diseq: Disequality)

  datatype Disequality = Disequality(a: nat, b: nat, lit: Lit)

  datatype UndoAction =
    | UndoLink(child: nat, oldParent: nat, oldRank: nat)
    | RemoveProofEdge(a: nat, b: nat)
    | AddLookup(sig: Sig, oldVal: Option<nat>)
    | AddDisequality

  ghost function LinksOf(log: seq<Event>): seq<Link>
    decreases |log|
  {
    if log == [] then []
    else
      var before := LinksOf(log[..|log| - 1]);
      var e := log[|log| - 1];
      if e.Linked? then before + [e.link] else before
  }

  ghost function EdgesOf(log: seq<Event>): seq<ProofEdge>
    decreases |log|
  {
    if log == [] then []
    else
      var before := EdgesOf(log[..|log| - 1]);
      var e := log[|log| - 1];
      if e.Edge? then before + [e.edge] else before
  }

  ghost function TableOf(log: seq<Event>): map<Sig, nat>
    decreases |log|
  {
    if log == [] then map[]
    else
      var before := TableOf(log[..|log| - 1]);
      var e := log[|log| - 1];
      if e.Lookup? then before[e.sig := e.app] else before
  }

  ghost function DiseqsOf(log: seq<Event>): seq<Disequality>
    decreases |log|
  {
    if log == [] then []
    else
      var before := DiseqsOf(log[..|log| - 1]);
      var e := log[|log| - 1];
      if e.Differs? then before + [e.diseq] else before
  }

  lemma LogAppend(log: seq<Event>, e: Event)
    ensures LinksOf(log + [e]) == if e.Linked? then LinksOf(log) + [e.link] else LinksOf(log)
    ensures EdgesOf(log + [e]) == if e.Edge? then EdgesOf(log) + [e.edge] else EdgesOf(log)
    ensures TableOf(log + [e]) == if e.Lookup? then TableOf(log)[e.sig := e.app] else TableOf(log)
    ensures DiseqsOf(log + [e]) == if e.Differs? then DiseqsOf(log) + [e.diseq] else DiseqsOf(log)
  {
    assert (log + [e])[..|log|] == log;
  }

  lemma {:induction false} LinksOfPrefix(log: seq<Event>, k: nat)
    requires k <= |log|
    ensures LinksOf(log[..k]) <= LinksOf(log)
    decreases |log|
  {
    if k < |log| {
      var n := |log| - 1;
      LinksOfPrefix(log[..n], k);
      assert log[..n][..k] == log[..k];
    } else {
      assert log[..k] == log;
    }
  }

  /** The undo action stands for the event that was logged with it. */
  ghost predicate Undoes(log: seq<Event>, i: nat, u: UndoAction)
    requires i < |log|
  {
    match log[i]
    case Edge(e) => u == RemoveProofEdge(e.a, e.b) && e.a != e.b
    case Linked(l) => u.UndoLink? && u.child == l.child && u.oldParent == l.child
    case Lookup(sig, _) => u == AddLookup(sig, None) && sig !in TableOf(log[..i])
    case Differs(_) => u == AddDisequality
  }

  ghost predicate Undoable(log: seq<Event>, undo: seq<UndoAction>) {
    |undo| == |log| && forall i :: 0 <= i < |log| ==> Undoes(log, i, undo[i])
  }

  ghost predicate ParentsOk(parent: map<nat, nat>, links: seq<Link>) {
    forall t :: t in parent ==> parent[t] == ParentOf(links, t)
  }

  /** The engine's tables are what the log says. */
  ghost predicate Synced(parent: map<nat, nat>, adj: Adjacency, table: map<Sig, nat>, diseqs: seq<Disequality>, log: seq<Event>) {
    && ParentsOk(parent, LinksOf(log))
    && Mirrors(adj, EdgesOf(log))
    && table == TableOf(log)
    && diseqs == DiseqsOf(log)
  }

  lemma UndoableAppend(log: seq<Event>, undo: seq<UndoAction>, e: Event, u: UndoAction)
    requires Undoable(log, undo) && Undoes(log + [e], |log|, u)
    ensures Undoable(log + [e], undo + [u])
  {
    var log', undo' := log + [e], undo + [u];
    forall i | 0 <= i < |log'| ensures Undoes(log', i, undo'[i]) {
      assert i < |log| ==> log'[..i] == log[..i] && Undoes(log, i, undo[i]);
    }
  }

  lemma UndoablePrefix(log: seq<Event>, undo: seq<UndoAction>, k: nat)
    requires Undoable(log, undo) && k <= |log|
    ensures Undoable(log[..k], undo[..k])
  {
    forall i | 0 <= i < k ensures Undoes(log[..k], i, undo[..k][i]) {
      assert log[..k][..i] == log[..i] && Undoes(log, i, undo[i]);
    }
  }

  // ---------- adjacency lists, forward and back ----------

  function Listed<T>(m: map<nat, seq<T>>, k: nat, x: T): map<nat, seq<T>> { m[k := Get(m, k) + [x]] }

  /** A new edge is appended to the lists of both its ends. */
  lemma MirrorsPush(adj: Adjacency, edges: seq<ProofEdge>, e: ProofEdge)
    requires Mirrors(adj, edges) && e.a != e.b
    ensures Mirrors(Listed(Listed(adj, e.a, (e.b, e.reason)), e.b, (e.a, e.reason)), edges + [e])
  {
    var adj' := Listed(Listed(adj, e.a, (e.b, e.reason)), e.b, (e.a, e.reason));
    forall t: nat ensures Get(adj', t) == AdjList(edges + [e], t) {
      AdjAppend(edges, e, t);
      assert Get(adj, t) == AdjList(edges, t);
    }
  }

  /** The last entry for `to` taken out of the list, if there is one. */
  function RemoveLast(list: seq<(nat, Option<Lit>)>, to: nat): seq<(nat, Option<Lit>)>
    decreases |list|
  {
    if list == [] then []
    else if list[|list| - 1].0 == to then list[..|list| - 1]
    else RemoveLast(list[..|list| - 1], to) + [list[|list| - 1]]
  }

  function RemoveEntry(adj: Adjacency, t: nat, to: nat): Adjacency {
    if t in adj then adj[t := RemoveLast(adj[t], to)] else adj
  }

  /** Taking out the last entries for its ends undoes the youngest edge. */
  lemma MirrorsPop(adj: Adjacency, edges: seq<ProofEdge>)
    requires |edges| > 0 && Mirrors(adj, edges) && edges[|edges| - 1].a != edges[|edges| - 1].b
    ensures var e := edges[|edges| - 1]; Mirrors(RemoveEntry(RemoveEntry(adj, e.a, e.b), e.b, e.a), edges[..|edges| - 1])
  {
    var n := |edges| - 1;
    var e := edges[n];
    var adj' := RemoveEntry(RemoveEntry(adj, e.a, e.b), e.b, e.a);
    assert edges == edges[..n] + [e];
    forall t: nat ensures Get(adj', t) == AdjList(edges[..n], t) {
      AdjAppend(edges[..n], e, t);
      assert Get(adj, t) == AdjList(edges, t);
    }
  }

  // ---------- undoing the youngest event ----------

  /** What `pop` does to the tables for one action. */
  function UndoParent(parent: map<nat, nat>, u: UndoAction): map<nat, nat> {
    if u.UndoLink? then parent[u.child := u.oldParent] else parent
  }

  function UndoAdj(adj: Adjacency, u: UndoAction): Adjacency {
    if u.RemoveProofEdge? then RemoveEntry(RemoveEntry(adj, u.a, u.b), u.b, u.a) else adj
  }

  function UndoTable(table: map<Sig, nat>, u: UndoAction): map<Sig, nat> {
    match u
    case AddLookup(sig, Some(val)) => table[sig := val]
    case AddLookup(sig, None) => table - {sig}
    case _ => table
  }

  function UndoDiseqs(diseqs: seq<Disequality>, u: UndoAction): seq<Disequality> {
    if u.AddDisequality? && |diseqs| > 0 then diseqs[..|diseqs| - 1] else diseqs
  }

  lemma UndoLinked(parent: map<nat, nat>, links: seq<Link>, reg: set<nat>, l: Link)
    requires LinksOk(links + [l], reg) && ParentsOk(parent, links + [l]) && parent.Keys == reg
    ensures ParentsOk(parent[l.child := l.child], links) && l.child in reg
  {
    var links' := links + [l];
    assert links'[..|links|] == links && links'[|links|] == l;
    LinksPrefix(links', reg, |links|);
    RootIffNoParent(links, reg, l.child);
  }

  lemma UndoLookup(table: map<Sig, nat>, log: seq<Event>, sig: Sig, app: nat)
    requires table == TableOf(log)[sig := app] && sig !in TableOf(log)
    ensures table - {sig} == TableOf(log)
  {
  }

  lemma UndoYoungest(parent: map<nat, nat>, adj: Adjacency, table: map<Sig, nat>, diseqs: seq<Disequality>, log: seq<Event>,
                     e: Event, u: UndoAction, reg: set<nat>)
    requires Synced(parent, adj, table, diseqs, log + [e]) && Undoes(log + [e], |log|, u)
    requires LinksOk(LinksOf(log + [e]), reg) && reg == parent.Keys
    ensures Synced(UndoParent(parent, u), UndoAdj(adj, u), UndoTable(table, u), UndoDiseqs(diseqs, u), log)
    ensures UndoParent(parent, u).Keys == reg && LinksOk(LinksOf(log), reg)
  {
    hide LinksOf, EdgesOf, TableOf, DiseqsOf, Mirrors, ParentsOk, LinksOk, RemoveEntry;
    LogAppend(log, e);
    assert (log + [e])[..|log|] == log;
    var links := LinksOf(log);
    match e
    case Edge(edge) =>
      assert (EdgesOf(log) + [edge])[..|EdgesOf(log)|] == EdgesOf(log);
      MirrorsPop(adj, EdgesOf(log) + [edge]);
    case Linked(l) =>
      UndoLinked(parent, links, reg, l);
      LinksPrefix(links + [l], reg, |links|);
      assert (links + [l])[..|links|] == links;
    case Lookup(sig, app) =>
      UndoLookup(table, log, sig, app);
    case Differs(d) =>
      assert diseqs[..|diseqs| - 1] == DiseqsOf(log);
  }
}
