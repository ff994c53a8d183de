/** What blocks the next migration step of a module, and how many of its edges would join two languages. */
module Blockers {
  import opened Wrappers
  import opened ManifestModel
  import opened Listing

  datatype Blocker =
    | InvalidTransition(expected: Option<MigrationState>)
    | MissingCompatibilityGates
    | MissingGateDefinition(gate: string)
    | UncoveredRequiredTarget(target: string)
    | UnsafeOutgoingBoundary(dependency: string, boundary: Boundary, state: MigrationState)
    | UnsafeIncomingBoundary(dependent: string, boundary: Boundary, state: MigrationState)
    | UnresolvedModuleReview(kind: ReviewKind, file: string, line: nat)
    | UnresolvedOutgoingReview(dependency: string, kind: ReviewKind, file: string, line: nat)
    | UnresolvedIncomingReview(dependent: string, kind: ReviewKind, file: string, line: nat)

  // ----- what blocks a step, stated as relations over the manifest -----

  ghost predicate Covers(m: Manifest, gates: seq<string>, target: string) {
    exists g :: g in gates && m.FindGate(g).Some? && target in m.FindGate(g).value.targets
  }

  ghost predicate HasUnresolved(reviews: seq<Review>, kind: ReviewKind, file: string, line: nat) {
    Review(kind, file, line, false) in reviews
  }

  ghost predicate Resolved(reviews: seq<Review>) {
    forall r :: r in reviews ==> r.resolved
  }

  /** d is a dependency of mod on the declared module t. */
  ghost predicate Outgoing(m: Manifest, mod: Module, d: Dependency, t: Module) {
    d in mod.dependencies && m.FindModule(d.target) == Some(t)
  }

  /** d is a dependency of the module s on mod. */
  ghost predicate Incoming(m: Manifest, mod: Module, d: Dependency, s: Module) {
    s in m.modules && d in s.dependencies && d.target == mod.id
  }

  ghost predicate Blocks(m: Manifest, mod: Module, to: MigrationState, b: Blocker) {
    match b
    case InvalidTransition(expected) => mod.state.Next() != Some(to) && expected == mod.state.Next()
    case MissingCompatibilityGates => mod.gates == []
    case MissingGateDefinition(g) => g in mod.gates && m.FindGate(g).None?
    case UncoveredRequiredTarget(t) => Target(t, true) in m.targets && !Covers(m, mod.gates, t)
    case UnresolvedModuleReview(kind, file, line) => to == RustOwned && HasUnresolved(mod.reviews, kind, file, line)
    case UnsafeOutgoingBoundary(id, boundary, state) =>
      to == RustOwned && state != RustOwned && !boundary.IsAuditedCrossLanguage() &&
      exists d, t :: Outgoing(m, mod, d, t) && t.id == id && t.state == state && d.boundary == boundary
    case UnsafeIncomingBoundary(id, boundary, state) =>
      to == RustOwned && state != RustOwned && !boundary.IsAuditedCrossLanguage() &&
      exists d, s :: Incoming(m, mod, d, s) && s.id == id && s.state == state && d.boundary == boundary
    case UnresolvedOutgoingReview(id, kind, file, line) =>
      to == RustOwned &&
      exists d, t :: Outgoing(m, mod, d, t) && t.id == id && HasUnresolved(d.reviews, kind, file, line)
    case UnresolvedIncomingReview(id, kind, file, line) =>
      to == RustOwned &&
      exists d, s :: Incoming(m, mod, d, s) && s.id == id && HasUnresolved(d.reviews, kind, file, line)
  }

  // ----- the same conditions as a legality predicate -----

  /** The gates are declared, defined and cover every required target. */
  ghost predicate GatesReady(m: Manifest, mod: Module) {
    && mod.gates != []
    && (forall g :: g in mod.gates ==> m.FindGate(g).Some?)
    && (forall t :: t in m.targets && t.required ==> Covers(m, mod.gates, t.id))
  }

  /** An edge whose other end is in `state` may have one end owned by Rust. */
  ghost predicate EdgeReady(d: Dependency, state: MigrationState) {
    Resolved(d.reviews) && (state == RustOwned || d.boundary.IsAuditedCrossLanguage())
  }

  ghost predicate RustReady(m: Manifest, mod: Module) {
    && Resolved(mod.reviews)
    && (forall d, t :: Outgoing(m, mod, d, t) ==> EdgeReady(d, t.state))
    && (forall d, s :: Incoming(m, mod, d, s) ==> EdgeReady(d, s.state))
  }

  ghost predicate Permitted(m: Manifest, mod: Module, to: MigrationState) {
    mod.state.Next() == Some(to) && GatesReady(m, mod) && (to == RustOwned ==> RustReady(m, mod))
  }

  /** A step is permitted exactly when nothing blocks it. */
  lemma PermittedIffUnblocked(m: Manifest, mod: Module, to: MigrationState)
    ensures Permitted(m, mod, to) <==> forall b :: !Blocks(m, mod, to, b)
  {
    if forall b :: !Blocks(m, mod, to, b) {
      assert !Blocks(m, mod, to, InvalidTransition(mod.state.Next()));
      assert !Blocks(m, mod, to, MissingCompatibilityGates);
      assert GatesReady(m, mod) by {
        forall g | g in mod.gates ensures m.FindGate(g).Some? {
          assert !Blocks(m, mod, to, MissingGateDefinition(g));
        }
        forall t | t in m.targets && t.required ensures Covers(m, mod.gates, t.id) {
          assert t == Target(t.id, true);
          assert !Blocks(m, mod, to, UncoveredRequiredTarget(t.id));
        }
      }
      if to == RustOwned {
        UnblockedIsRustReady(m, mod);
      }
    }
  }

  lemma UnresolvedReview(reviews: seq<Review>) returns (r: Review)
    requires !Resolved(reviews)
    ensures HasUnresolved(reviews, r.kind, r.file, r.line)
  {
    r :| r in reviews && !r.resolved;
    assert r == Review(r.kind, r.file, r.line, false);
  }

  lemma UnblockedIsRustReady(m: Manifest, mod: Module)
    requires forall b :: !Blocks(m, mod, RustOwned, b)
    ensures RustReady(m, mod)
  {
    if !Resolved(mod.reviews) {
      var r := UnresolvedReview(mod.reviews);
      assert Blocks(m, mod, RustOwned, UnresolvedModuleReview(r.kind, r.file, r.line));
    }
    forall d, t | Outgoing(m, mod, d, t) ensures EdgeReady(d, t.state) {
      assert !Blocks(m, mod, RustOwned, UnsafeOutgoingBoundary(t.id, d.boundary, t.state));
      if !Resolved(d.reviews) {
        var r := UnresolvedReview(d.reviews);
        assert Blocks(m, mod, RustOwned, UnresolvedOutgoingReview(t.id, r.kind, r.file, r.line));
      }
    }
    forall d, s | Incoming(m, mod, d, s) ensures EdgeReady(d, s.state) {
      assert !Blocks(m, mod, RustOwned, UnsafeIncomingBoundary(s.id, d.boundary, s.state));
      if !Resolved(d.reviews) {
        var r := UnresolvedReview(d.reviews);
        assert Blocks(m, mod, RustOwned, UnresolvedIncomingReview(s.id, r.kind, r.file, r.line));
      }
    }
  }

  // ----- edges counted as crossing the language border once the module is owned by Rust -----

  ghost predicate Crosses(d: Dependency, other: MigrationState) {
    other != RustOwned || d.boundary != Rust
  }

  ghost predicate CrossingOut(m: Manifest, mod: Module, k: int) {
    0 <= k < |mod.dependencies| &&
    match m.FindModule(mod.dependencies[k].target) {
      case None => false
      case Some(t) => Crosses(mod.dependencies[k], t.state)
    }
  }

  ghost predicate CrossingIn(m: Manifest, mod: Module, i: int, k: int) {
    0 <= i < |m.modules| && 0 <= k < |m.modules[i].dependencies| &&
    m.modules[i].dependencies[k].target == mod.id &&
    Crosses(m.modules[i].dependencies[k], m.modules[i].state)
  }

  ghost function CrossingsOut(m: Manifest, mod: Module, upTo: nat): set<nat>
    requires upTo <= |mod.dependencies|
  {
    set k: nat | k < upTo && CrossingOut(m, mod, k)
  }

  ghost function CrossingsOf(m: Manifest, mod: Module, i: nat, upTo: nat): set<nat>
    requires i < |m.modules| && upTo <= |m.modules[i].dependencies|
  {
    set k: nat | k < upTo && CrossingIn(m, mod, i, k)
  }

  /** The number of incoming crossing dependencies of the first n modules. */
  ghost function CrossingsIn(m: Manifest, mod: Module, n: nat): nat
    requires n <= |m.modules|
  {
    if n == 0 then 0
    else CrossingsIn(m, mod, n - 1) + |CrossingsOf(m, mod, n - 1, |m.modules[n - 1].dependencies|)|
  }

  ghost function CrossLanguageEdges(m: Manifest, mod: Module): nat {
    |CrossingsOut(m, mod, |mod.dependencies|)| + CrossingsIn(m, mod, |m.modules|)
  }

  // ----- every declared edge crosses, but for those marked Rust between two ends owned by Rust -----

  /** The dependencies of the module on declared modules. */
  ghost function DeclaredOut(m: Manifest, mod: Module): set<nat> {
    set k: nat | k < |mod.dependencies| && m.FindModule(mod.dependencies[k].target).Some?
  }

  ghost function RustOut(m: Manifest, mod: Module): set<nat> {
    set k: nat | k < |mod.dependencies| && m.FindModule(mod.dependencies[k].target).Some? &&
                 m.FindModule(mod.dependencies[k].target).value.state == RustOwned &&
                 mod.dependencies[k].boundary == Rust
  }

  ghost function DeclaredInOf(mod: Module, s: Module): set<nat> {
    set k: nat | k < |s.dependencies| && s.dependencies[k].target == mod.id
  }

  ghost function RustInOf(mod: Module, s: Module): set<nat> {
    set k: nat | k < |s.dependencies| && s.dependencies[k].target == mod.id && s.dependencies[k].boundary == Rust &&
                 s.state == RustOwned
  }

  /** The number of dependencies of the first n modules on the module. */
  ghost function DeclaredIn(m: Manifest, mod: Module, n: nat): nat
    requires n <= |m.modules|
  {
    if n == 0 then 0 else DeclaredIn(m, mod, n - 1) + |DeclaredInOf(mod, m.modules[n - 1])|
  }

  ghost function RustIn(m: Manifest, mod: Module, n: nat): nat
    requires n <= |m.modules|
  {
    if n == 0 then 0 else RustIn(m, mod, n - 1) + |RustInOf(mod, m.modules[n - 1])|
  }

  lemma CrossingsOfComplement(m: Manifest, mod: Module, i: nat)
    requires i < |m.modules|
    ensures |CrossingsOf(m, mod, i, |m.modules[i].dependencies|)| + |RustInOf(mod, m.modules[i])| ==
            |DeclaredInOf(mod, m.modules[i])|
  {
    var crossing, rust := CrossingsOf(m, mod, i, |m.modules[i].dependencies|), RustInOf(mod, m.modules[i]);
    assert DeclaredInOf(mod, m.modules[i]) == crossing + rust && crossing * rust == {};
  }

  lemma {:induction false} CrossingsInComplement(m: Manifest, mod: Module, n: nat)
    requires n <= |m.modules|
    ensures CrossingsIn(m, mod, n) + RustIn(m, mod, n) == DeclaredIn(m, mod, n)
  {
    hide CrossingsOf, RustInOf, DeclaredInOf;
    if n != 0 {
      CrossingsInComplement(m, mod, n - 1);
      CrossingsOfComplement(m, mod, n - 1);
    }
  }

  lemma CrossingsOutComplement(m: Manifest, mod: Module)
    ensures |CrossingsOut(m, mod, |mod.dependencies|)| + |RustOut(m, mod)| == |DeclaredOut(m, mod)|
  {
    hide Manifest.FindModule;
    var crossing := CrossingsOut(m, mod, |mod.dependencies|);
    assert DeclaredOut(m, mod) == crossing + RustOut(m, mod) && crossing * RustOut(m, mod) == {};
  }

  /** The crossing edges and the edges marked Rust to or from Rust-owned modules are together all edges of the module
      with a declared other end. */
  lemma CrossingsComplement(m: Manifest, mod: Module)
    ensures CrossLanguageEdges(m, mod) + |RustOut(m, mod)| + RustIn(m, mod, |m.modules|) ==
            |DeclaredOut(m, mod)| + DeclaredIn(m, mod, |m.modules|)
  {
    hide CrossingsOut, CrossingsIn, RustOut, RustIn, DeclaredOut, DeclaredIn;
    CrossingsInComplement(m, mod, |m.modules|);
    CrossingsOutComplement(m, mod);
  }

  lemma {:induction false} NoRustIn(m: Manifest, mod: Module, n: nat)
    requires n <= |m.modules| && forall d, s :: Incoming(m, mod, d, s) ==> d.boundary != Rust
    ensures RustIn(m, mod, n) == 0
  {
    if n != 0 {
      NoRustIn(m, mod, n - 1);
      var s := m.modules[n - 1];
      assert forall k :: 0 <= k < |s.dependencies| && s.dependencies[k].target == mod.id ==>
                           Incoming(m, mod, s.dependencies[k], s);
      assert RustInOf(mod, s) == {};
    }
  }

  /** When no edge at the module is marked Rust, as when all of them are audited, every declared edge is counted. */
  lemma AuditedEdgesCross(m: Manifest, mod: Module)
    requires forall d, t :: Outgoing(m, mod, d, t) ==> d.boundary != Rust
    requires forall d, s :: Incoming(m, mod, d, s) ==> d.boundary != Rust
    ensures CrossLanguageEdges(m, mod) == |DeclaredOut(m, mod)| + DeclaredIn(m, mod, |m.modules|)
  {
    CrossingsComplement(m, mod);
    NoRustIn(m, mod, |m.modules|);
    assert RustOut(m, mod) == {} by {
      forall k | k in RustOut(m, mod) ensures false {
        assert Outgoing(m, mod, mod.dependencies[k], m.FindModule(mod.dependencies[k].target).value);
      }
    }
  }

  // ----- where each blocker comes from -----

  /** The dependency k of the module gives a blocker for each open review, and behind them one for its boundary. */
  ghost predicate OutgoingCause(m: Manifest, mod: Module, k: nat, l: nat, b: Blocker) {
    && k < |mod.dependencies| && m.FindModule(mod.dependencies[k].target).Some?
    && var d, t := mod.dependencies[k], m.FindModule(mod.dependencies[k].target).value;
       || (l < |d.reviews| && !d.reviews[l].resolved &&
           b == UnresolvedOutgoingReview(t.id, d.reviews[l].kind, d.reviews[l].file, d.reviews[l].line))
       || (l == |d.reviews| && t.state != RustOwned && !d.boundary.IsAuditedCrossLanguage() &&
           b == UnsafeOutgoingBoundary(t.id, d.boundary, t.state))
  }

  /** So does the dependency k of module i when it is on this module. */
  ghost predicate IncomingCause(m: Manifest, mod: Module, i: nat, k: nat, l: nat, b: Blocker) {
    && i < |m.modules| && k < |m.modules[i].dependencies| && m.modules[i].dependencies[k].target == mod.id
    && var s, d := m.modules[i], m.modules[i].dependencies[k];
       || (l < |d.reviews| && !d.reviews[l].resolved &&
           b == UnresolvedIncomingReview(s.id, d.reviews[l].kind, d.reviews[l].file, d.reviews[l].line))
       || (l == |d.reviews| && s.state != RustOwned && !d.boundary.IsAuditedCrossLanguage() &&
           b == UnsafeIncomingBoundary(s.id, d.boundary, s.state))
  }

  /** The step, the lack of gates, a gate, a target, a review of the module, an outgoing and an incoming edge, in this
      order, each gives the blocker at its place. */
  ghost predicate Cause(m: Manifest, mod: Module, to: MigrationState, p: Place, b: Blocker) {
    || (p == Place(0, 0, 0, 0) && mod.state.Next() != Some(to) && b == InvalidTransition(mod.state.Next()))
    || (p == Place(1, 0, 0, 0) && mod.gates == [] && b == MissingCompatibilityGates)
    || (p == Place(2, p.b, 0, 0) && p.b < |mod.gates| && m.FindGate(mod.gates[p.b]).None? &&
        b == MissingGateDefinition(mod.gates[p.b]))
    || (p == Place(3, p.b, 0, 0) && p.b < |m.targets| && m.targets[p.b].required &&
        !Covers(m, mod.gates, m.targets[p.b].id) && b == UncoveredRequiredTarget(m.targets[p.b].id))
    || (p == Place(4, p.b, 0, 0) && to == RustOwned && p.b < |mod.reviews| && !mod.reviews[p.b].resolved &&
        b == UnresolvedModuleReview(mod.reviews[p.b].kind, mod.reviews[p.b].file, mod.reviews[p.b].line))
    || (p == Place(5, p.b, p.c, 0) && to == RustOwned && OutgoingCause(m, mod, p.b, p.c, b))
    || (p.a == 6 && to == RustOwned && IncomingCause(m, mod, p.b, p.c, p.d, b))
  }

  ghost function Causes(m: Manifest, mod: Module, to: MigrationState): (Place, Blocker) -> bool {
    (p: Place, b: Blocker) => Cause(m, mod, to, p, b)
  }

  /** The blockers are those caused before the bound, in order, one for each place. */
  ghost predicate Caused(
    m: Manifest, mod: Module, to: MigrationState, bound: Place, places: seq<Place>, blockers: seq<Blocker>)
  {
    Lists(Causes(m, mod, to), bound, places, blockers)
  }

  const THE_END: Place := Place(7, 0, 0, 0)

  lemma ReviewAt(reviews: seq<Review>, kind: ReviewKind, file: string, line: nat) returns (l: nat)
    requires HasUnresolved(reviews, kind, file, line)
    ensures l < |reviews| && reviews[l] == Review(kind, file, line, false)
  {
    l :| 0 <= l < |reviews| && reviews[l] == Review(kind, file, line, false);
  }

  lemma OutgoingAt(m: Manifest, mod: Module, b: Blocker) returns (p: Place)
    requires b.UnsafeOutgoingBoundary? || b.UnresolvedOutgoingReview?
    requires Blocks(m, mod, RustOwned, b)
    ensures Before(p, THE_END) && Cause(m, mod, RustOwned, p, b)
  {
    if b.UnsafeOutgoingBoundary? {
      var d, t :| Outgoing(m, mod, d, t) && t.id == b.dependency && t.state == b.state && d.boundary == b.boundary;
      var k :| 0 <= k < |mod.dependencies| && mod.dependencies[k] == d;
      p := Place(5, k, |d.reviews|, 0);
    } else {
      var d, t :| Outgoing(m, mod, d, t) && t.id == b.dependency && HasUnresolved(d.reviews, b.kind, b.file, b.line);
      var k :| 0 <= k < |mod.dependencies| && mod.dependencies[k] == d;
      var l := ReviewAt(d.reviews, b.kind, b.file, b.line);
      p := Place(5, k, l, 0);
    }
  }

  lemma IncomingAt(m: Manifest, mod: Module, b: Blocker) returns (p: Place)
    requires b.UnsafeIncomingBoundary? || b.UnresolvedIncomingReview?
    requires Blocks(m, mod, RustOwned, b)
    ensures Before(p, THE_END) && Cause(m, mod, RustOwned, p, b)
  {
    if b.UnsafeIncomingBoundary? {
      var d, s :| Incoming(m, mod, d, s) && s.id == b.dependent && s.state == b.state && d.boundary == b.boundary;
      var i :| 0 <= i < |m.modules| && m.modules[i] == s;
      var k :| 0 <= k < |s.dependencies| && s.dependencies[k] == d;
      p := Place(6, i, k, |d.reviews|);
    } else {
      var d, s :| Incoming(m, mod, d, s) && s.id == b.dependent && HasUnresolved(d.reviews, b.kind, b.file, b.line);
      var i :| 0 <= i < |m.modules| && m.modules[i] == s;
      var k :| 0 <= k < |s.dependencies| && s.dependencies[k] == d;
      var l := ReviewAt(d.reviews, b.kind, b.file, b.line);
      p := Place(6, i, k, l);
    }
  }

  lemma BlockerAt(m: Manifest, mod: Module, to: MigrationState, b: Blocker) returns (p: Place)
    requires Blocks(m, mod, to, b)
    ensures Before(p, THE_END) && Cause(m, mod, to, p, b)
  {
    if b.InvalidTransition? {
      p := Place(0, 0, 0, 0);
    } else if b.MissingCompatibilityGates? {
      p := Place(1, 0, 0, 0);
    } else if b.MissingGateDefinition? {
      var k :| 0 <= k < |mod.gates| && mod.gates[k] == b.gate;
      p := Place(2, k, 0, 0);
    } else if b.UncoveredRequiredTarget? {
      var k :| 0 <= k < |m.targets| && m.targets[k] == Target(b.target, true);
      p := Place(3, k, 0, 0);
    } else if b.UnresolvedModuleReview? {
      var k := ReviewAt(mod.reviews, b.kind, b.file, b.line);
      p := Place(4, k, 0, 0);
    } else if b.UnsafeOutgoingBoundary? || b.UnresolvedOutgoingReview? {
      p := OutgoingAt(m, mod, b);
    } else {
      p := IncomingAt(m, mod, b);
    }
  }

  lemma ReviewBlocks(reviews: seq<Review>, l: nat)
    requires l < |reviews| && !reviews[l].resolved
    ensures HasUnresolved(reviews, reviews[l].kind, reviews[l].file, reviews[l].line)
  {
    assert reviews[l] == Review(reviews[l].kind, reviews[l].file, reviews[l].line, false);
  }

  lemma CauseBlocks(m: Manifest, mod: Module, to: MigrationState, p: Place, b: Blocker)
    requires Cause(m, mod, to, p, b)
    ensures Blocks(m, mod, to, b)
  {
    if p.a == 3 {
      assert m.targets[p.b] == Target(m.targets[p.b].id, true);
    } else if p.a == 4 {
      ReviewBlocks(mod.reviews, p.b);
    } else if p.a == 5 {
      var d, t := mod.dependencies[p.b], m.FindModule(mod.dependencies[p.b].target).value;
      assert Outgoing(m, mod, d, t);
      if p.c < |d.reviews| {
        ReviewBlocks(d.reviews, p.c);
      }
    } else if p.a == 6 {
      var s, d := m.modules[p.b], m.modules[p.b].dependencies[p.c];
      assert Incoming(m, mod, d, s);
      if p.d < |d.reviews| {
        ReviewBlocks(d.reviews, p.d);
      }
    }
  }

  /** A complete list of the blockers that are caused holds exactly what blocks the step. */
  lemma CausedMeans(
    m: Manifest, mod: Module, to: MigrationState, places: seq<Place>, blockers: seq<Blocker>, b: Blocker)
    requires Caused(m, mod, to, THE_END, places, blockers)
    ensures b in blockers <==> Blocks(m, mod, to, b)
  {
    assert forall p, x, y :: Cause(m, mod, to, p, x) && Cause(m, mod, to, p, y) ==> x == y;
    ListedMeans(Causes(m, mod, to), THE_END, places, blockers, b);
    hide Cause, Blocks, Lists;
    if b in blockers {
      var p :| Before(p, THE_END) && Causes(m, mod, to)(p, b);
      CauseBlocks(m, mod, to, p, b);
    }
    if Blocks(m, mod, to, b) {
      var p := BlockerAt(m, mod, to, b);
      assert Causes(m, mod, to)(p, b);
    }
  }

  // ----- from one place to the next -----

  /** A list that is complete up to a place is complete up to the next with what is caused there. */
  lemma CausedStep(
    m: Manifest, mod: Module, to: MigrationState, from: Place, next: Place, places: seq<Place>,
    blockers: seq<Blocker>, b: Blocker, here: bool) returns (places': seq<Place>)
    requires Caused(m, mod, to, from, places, blockers) && Adjacent(Causes(m, mod, to), from, next)
    requires forall x :: Cause(m, mod, to, from, x) <==> here && x == b
    ensures Caused(m, mod, to, next, places', blockers + Found(b, here))
  {
    hide Cause, Lists, Adjacent;
    places' := ListsStep(Causes(m, mod, to), from, next, places, blockers, b, here);
  }
}
