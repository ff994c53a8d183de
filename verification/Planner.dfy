/** Transition assessment: when one module may take its next migration step. */
module Planner {
  import opened Wrappers
  import opened Ordering
  import opened ManifestModel
  import opened Listing
  import opened Blockers

  datatype Assessment = Assessment(
    mod: string, from: MigrationState, to: MigrationState, allowed: bool, blockers: seq<Blocker>,
    gateCount: nat, crossLanguageEdges: nat)

  // ----- the assessment -----

  lemma NoGatesPlace(m: Manifest, mod: Module, to: MigrationState)
    ensures Adjacent(Causes(m, mod, to), Place(1, 0, 0, 0), Place(2, 0, 0, 0))
    ensures forall b :: Cause(m, mod, to, Place(1, 0, 0, 0), b) <==> mod.gates == [] && b == MissingCompatibilityGates
  {
  }

  lemma GatePlace(m: Manifest, mod: Module, to: MigrationState, k: nat)
    requires k < |mod.gates|
    ensures Adjacent(Causes(m, mod, to), Place(2, k, 0, 0), Place(2, k + 1, 0, 0))
    ensures forall b :: Cause(m, mod, to, Place(2, k, 0, 0), b) <==>
                        m.FindGate(mod.gates[k]).None? && b == MissingGateDefinition(mod.gates[k])
  {
  }

  lemma TargetPlace(m: Manifest, mod: Module, to: MigrationState, k: nat)
    requires k < |m.targets|
    ensures Adjacent(Causes(m, mod, to), Place(3, k, 0, 0), Place(3, k + 1, 0, 0))
    ensures forall b :: Cause(m, mod, to, Place(3, k, 0, 0), b) <==>
                        m.targets[k].required && !Covers(m, mod.gates, m.targets[k].id) &&
                        b == UncoveredRequiredTarget(m.targets[k].id)
  {
    hide Covers;
  }

  lemma ReviewPlace(m: Manifest, mod: Module, k: nat)
    requires k < |mod.reviews|
    ensures Adjacent(Causes(m, mod, RustOwned), Place(4, k, 0, 0), Place(4, k + 1, 0, 0))
    ensures forall b :: Cause(m, mod, RustOwned, Place(4, k, 0, 0), b) <==>
                        var r := mod.reviews[k]; !r.resolved && b == UnresolvedModuleReview(r.kind, r.file, r.line)
  {
  }

  lemma OutgoingReviewPlace(m: Manifest, mod: Module, k: nat, l: nat)
    requires k < |mod.dependencies| && l < |mod.dependencies[k].reviews|
    requires m.FindModule(mod.dependencies[k].target).Some?
    ensures Adjacent(Causes(m, mod, RustOwned), Place(5, k, l, 0), Place(5, k, l + 1, 0))
    ensures forall b :: Cause(m, mod, RustOwned, Place(5, k, l, 0), b) <==>
                        var r, t := mod.dependencies[k].reviews[l], m.FindModule(mod.dependencies[k].target).value;
                        !r.resolved && b == UnresolvedOutgoingReview(t.id, r.kind, r.file, r.line)
  {
  }

  lemma OutgoingEdgePlace(m: Manifest, mod: Module, k: nat)
    requires k < |mod.dependencies| && m.FindModule(mod.dependencies[k].target).Some?
    ensures Adjacent(Causes(m, mod, RustOwned), Place(5, k, |mod.dependencies[k].reviews|, 0), Place(5, k + 1, 0, 0))
    ensures forall b :: Cause(m, mod, RustOwned, Place(5, k, |mod.dependencies[k].reviews|, 0), b) <==>
                        var d, t := mod.dependencies[k], m.FindModule(mod.dependencies[k].target).value;
                        && t.state != RustOwned && !d.boundary.IsAuditedCrossLanguage()
                        && b == UnsafeOutgoingBoundary(t.id, d.boundary, t.state)
  {
  }

  lemma IncomingReviewPlace(m: Manifest, mod: Module, i: nat, k: nat, l: nat)
    requires i < |m.modules| && k < |m.modules[i].dependencies| && l < |m.modules[i].dependencies[k].reviews|
    requires m.modules[i].dependencies[k].target == mod.id
    ensures Adjacent(Causes(m, mod, RustOwned), Place(6, i, k, l), Place(6, i, k, l + 1))
    ensures forall b :: Cause(m, mod, RustOwned, Place(6, i, k, l), b) <==>
                        var r, s := m.modules[i].dependencies[k].reviews[l], m.modules[i];
                        !r.resolved && b == UnresolvedIncomingReview(s.id, r.kind, r.file, r.line)
  {
  }

  lemma IncomingEdgePlace(m: Manifest, mod: Module, i: nat, k: nat)
    requires i < |m.modules| && k < |m.modules[i].dependencies| && m.modules[i].dependencies[k].target == mod.id
    ensures var d := m.modules[i].dependencies[k];
            Adjacent(Causes(m, mod, RustOwned), Place(6, i, k, |d.reviews|), Place(6, i, k + 1, 0))
    ensures forall b :: Cause(m, mod, RustOwned, Place(6, i, k, |m.modules[i].dependencies[k].reviews|), b) <==>
                        var d, s := m.modules[i].dependencies[k], m.modules[i];
                        && s.state != RustOwned && !d.boundary.IsAuditedCrossLanguage()
                        && b == UnsafeIncomingBoundary(s.id, d.boundary, s.state)
  {
  }

  lemma StageEnd(
    m: Manifest, mod: Module, to: MigrationState, from: Place, next: Place, places: seq<Place>,
    blockers: seq<Blocker>) returns (places': seq<Place>)
    requires Caused(m, mod, to, from, places, blockers) && Before(from, next)
    requires || (from == Place(2, |mod.gates|, 0, 0) && next == Place(3, 0, 0, 0))
             || (from == Place(3, |m.targets|, 0, 0) && next == Place(4, 0, 0, 0))
             || (from == Place(4, 0, 0, 0) && next == THE_END && to != RustOwned)
             || (from == Place(4, |mod.reviews|, 0, 0) && next == Place(5, 0, 0, 0))
             || (from == Place(5, from.b, 0, 0) && from.b < |mod.dependencies| && next == Place(5, from.b + 1, 0, 0) &&
                 m.FindModule(mod.dependencies[from.b].target).None?)
             || (from == Place(5, |mod.dependencies|, 0, 0) && next == Place(6, 0, 0, 0))
             || (from == Place(6, from.b, from.c, 0) && from.b < |m.modules| &&
                 from.c < |m.modules[from.b].dependencies| && next == Place(6, from.b, from.c + 1, 0) &&
                 m.modules[from.b].dependencies[from.c].target != mod.id)
             || (from.b < |m.modules| && from == Place(6, from.b, |m.modules[from.b].dependencies|, 0) &&
                 next == Place(6, from.b + 1, 0, 0))
             || (from == Place(6, |m.modules|, 0, 0) && next == THE_END)
    ensures Caused(m, mod, to, next, places', blockers)
  {
    assert Free(Causes(m, mod, to), from, next);
    hide Cause, Free;
    ListsOn(Causes(m, mod, to), from, next, places, blockers);
    places' := places;
  }

  lemma NothingCaused(m: Manifest, mod: Module, to: MigrationState) returns (places: seq<Place>)
    ensures Caused(m, mod, to, Place(1, 0, 0, 0), places,
                   if mod.state.Next() != Some(to) then [InvalidTransition(mod.state.Next())] else [])
  {
    var b := InvalidTransition(mod.state.Next());
    assert forall x :: Cause(m, mod, to, Place(0, 0, 0, 0), x) <==> mod.state.Next() != Some(to) && x == b;
    assert Adjacent(Causes(m, mod, to), Place(0, 0, 0, 0), Place(1, 0, 0, 0));
    hide Cause, Adjacent;
    ListsNothing(Causes(m, mod, to));
    places := CausedStep(m, mod, to, Place(0, 0, 0, 0), Place(1, 0, 0, 0), [], [], b,
                         mod.state.Next() != Some(to));
    assert [] + [b] == [b];
  }

  method IsCovered(m: Manifest, gates: seq<string>, target: string) returns (covered: bool)
    ensures covered == Covers(m, gates, target)
  {
    for k := 0 to |gates|
      invariant !Covers(m, gates[..k], target)
    {
      if m.FindGate(gates[k]).Some? && target in m.FindGate(gates[k]).value.targets {
        return true;
      }
    }
    assert gates[..|gates|] == gates;
    return false;
  }

  ghost predicate GateBlocker(b: Blocker) {
    b.MissingCompatibilityGates? || b.MissingGateDefinition? || b.UncoveredRequiredTarget?
  }

  method AssessGates(m: Manifest, mod: Module, to: MigrationState, before: seq<Blocker>, ghost start: seq<Place>)
    returns (blockers: seq<Blocker>, ghost places: seq<Place>)
    requires Caused(m, mod, to, Place(1, 0, 0, 0), start, before)
    ensures Caused(m, mod, to, Place(4, 0, 0, 0), places, blockers)
    ensures forall b :: b in blockers <==> (b in before || (GateBlocker(b) && Blocks(m, mod, to, b)))
  {
    hide Cause, Covers, Caused, Adjacent;
    blockers := before;
    NoGatesPlace(m, mod, to);
    places := CausedStep(m, mod, to, Place(1, 0, 0, 0), Place(2, 0, 0, 0), start, before,
                         MissingCompatibilityGates, mod.gates == []);
    assert before + [] == before;
    if mod.gates == [] {
      blockers := blockers + [MissingCompatibilityGates];
    }
    ghost var declared := blockers;
    for k := 0 to |mod.gates|
      invariant Caused(m, mod, to, Place(2, k, 0, 0), places, blockers)
      invariant forall b :: b in blockers <==>
                            (b in declared ||
                             (b.MissingGateDefinition? && b.gate in mod.gates[..k] && m.FindGate(b.gate).None?))
    {
      assert mod.gates[..k + 1] == mod.gates[..k] + [mod.gates[k]];
      GatePlace(m, mod, to, k);
      places := CausedStep(m, mod, to, Place(2, k, 0, 0), Place(2, k + 1, 0, 0), places, blockers,
                           MissingGateDefinition(mod.gates[k]), m.FindGate(mod.gates[k]).None?);
      assert blockers + [] == blockers;
      if m.FindGate(mod.gates[k]).None? {
        blockers := blockers + [MissingGateDefinition(mod.gates[k])];
      }
    }
    assert mod.gates[..|mod.gates|] == mod.gates;
    ghost var defined := blockers;
    places := StageEnd(m, mod, to, Place(2, |mod.gates|, 0, 0), Place(3, 0, 0, 0), places, blockers);
    for k := 0 to |m.targets|
      invariant Caused(m, mod, to, Place(3, k, 0, 0), places, blockers)
      invariant forall b :: b in blockers <==>
                            (b in defined ||
                             (b.UncoveredRequiredTarget? && Target(b.target, true) in m.targets[..k] &&
                              !Covers(m, mod.gates, b.target)))
    {
      assert m.targets[..k + 1] == m.targets[..k] + [m.targets[k]];
      TargetPlace(m, mod, to, k);
      assert blockers + [] == blockers;
      places := CausedStep(m, mod, to, Place(3, k, 0, 0), Place(3, k + 1, 0, 0), places, blockers,
                           UncoveredRequiredTarget(m.targets[k].id),
                           m.targets[k].required && !Covers(m, mod.gates, m.targets[k].id));
      if m.targets[k].required {
        assert m.targets[k] == Target(m.targets[k].id, true);
        var covered := IsCovered(m, mod.gates, m.targets[k].id);
        if !covered {
          blockers := blockers + [UncoveredRequiredTarget(m.targets[k].id)];
        }
      }
    }
    assert m.targets[..|m.targets|] == m.targets;
    places := StageEnd(m, mod, to, Place(3, |m.targets|, 0, 0), Place(4, 0, 0, 0), places, blockers);
  }

  method AssessModuleReviews(ghost m: Manifest, mod: Module, before: seq<Blocker>, ghost start: seq<Place>)
    returns (blockers: seq<Blocker>, ghost places: seq<Place>)
    requires Caused(m, mod, RustOwned, Place(4, 0, 0, 0), start, before)
    ensures Caused(m, mod, RustOwned, Place(5, 0, 0, 0), places, blockers)
    ensures forall b :: b in blockers <==>
                        (b in before ||
                         (b.UnresolvedModuleReview? && HasUnresolved(mod.reviews, b.kind, b.file, b.line)))
  {
    hide Cause, Caused, Adjacent;
    blockers, places := before, start;
    var rs := mod.reviews;
    for k := 0 to |rs|
      invariant Caused(m, mod, RustOwned, Place(4, k, 0, 0), places, blockers)
      invariant forall b :: b in blockers <==>
                            (b in before ||
                             (b.UnresolvedModuleReview? && HasUnresolved(rs[..k], b.kind, b.file, b.line)))
    {
      assert rs[..k + 1] == rs[..k] + [rs[k]];
      ReviewPlace(m, mod, k);
      places := CausedStep(
        m, mod, RustOwned, Place(4, k, 0, 0), Place(4, k + 1, 0, 0), places, blockers,
        UnresolvedModuleReview(rs[k].kind, rs[k].file, rs[k].line), !rs[k].resolved);
      assert blockers + [] == blockers;
      if !rs[k].resolved {
        blockers := blockers + [UnresolvedModuleReview(rs[k].kind, rs[k].file, rs[k].line)];
      }
    }
    assert rs[..|rs|] == rs;
    places := StageEnd(m, mod, RustOwned, Place(4, |rs|, 0, 0), Place(5, 0, 0, 0), places, blockers);
  }

  /** The blockers one dependency on the module t contributes. */
  ghost predicate OutgoingBlocker(d: Dependency, t: Module, b: Blocker) {
    || (b.UnresolvedOutgoingReview? && b.dependency == t.id && HasUnresolved(d.reviews, b.kind, b.file, b.line))
    || (b == UnsafeOutgoingBoundary(t.id, d.boundary, t.state) && t.state != RustOwned &&
        !d.boundary.IsAuditedCrossLanguage())
  }

  ghost predicate IncomingBlocker(d: Dependency, s: Module, b: Blocker) {
    || (b.UnresolvedIncomingReview? && b.dependent == s.id && HasUnresolved(d.reviews, b.kind, b.file, b.line))
    || (b == UnsafeIncomingBoundary(s.id, d.boundary, s.state) && s.state != RustOwned &&
        !d.boundary.IsAuditedCrossLanguage())
  }

  method AssessOutgoing(
    ghost m: Manifest, ghost mod: Module, ghost k: nat, d: Dependency, t: Module, before: seq<Blocker>,
    ghost start: seq<Place>)
    returns (blockers: seq<Blocker>, crosses: bool, ghost places: seq<Place>)
    requires k < |mod.dependencies| && d == mod.dependencies[k] && m.FindModule(d.target) == Some(t)
    requires Caused(m, mod, RustOwned, Place(5, k, 0, 0), start, before)
    ensures Caused(m, mod, RustOwned, Place(5, k + 1, 0, 0), places, blockers)
    ensures forall b :: b in blockers <==> (b in before || OutgoingBlocker(d, t, b))
    ensures crosses == Crosses(d, t.state)
  {
    hide Cause, Caused, Adjacent;
    blockers, places := before, start;
    var rs := d.reviews;
    for l := 0 to |rs|
      invariant Caused(m, mod, RustOwned, Place(5, k, l, 0), places, blockers)
      invariant forall b :: b in blockers <==>
                            (b in before ||
                             (b.UnresolvedOutgoingReview? && b.dependency == t.id &&
                              HasUnresolved(rs[..l], b.kind, b.file, b.line)))
    {
      assert rs[..l + 1] == rs[..l] + [rs[l]];
      OutgoingReviewPlace(m, mod, k, l);
      places := CausedStep(
        m, mod, RustOwned, Place(5, k, l, 0), Place(5, k, l + 1, 0), places, blockers,
        UnresolvedOutgoingReview(t.id, rs[l].kind, rs[l].file, rs[l].line), !rs[l].resolved);
      assert blockers + [] == blockers;
      if !rs[l].resolved {
        blockers := blockers + [UnresolvedOutgoingReview(t.id, rs[l].kind, rs[l].file, rs[l].line)];
      }
    }
    assert rs[..|rs|] == rs;
    OutgoingEdgePlace(m, mod, k);
    places := CausedStep(
      m, mod, RustOwned, Place(5, k, |rs|, 0), Place(5, k + 1, 0, 0), places, blockers,
      UnsafeOutgoingBoundary(t.id, d.boundary, t.state),
      t.state != RustOwned && !d.boundary.IsAuditedCrossLanguage());
    assert blockers + [] == blockers;
    if t.state == RustOwned {
      return blockers, d.boundary != Rust, places;
    }
    if !d.boundary.IsAuditedCrossLanguage() {
      blockers := blockers + [UnsafeOutgoingBoundary(t.id, d.boundary, t.state)];
    }
    return blockers, true, places;
  }

  method AssessIncoming(
    ghost m: Manifest, ghost mod: Module, ghost i: nat, ghost k: nat, d: Dependency, s: Module, before: seq<Blocker>,
    ghost start: seq<Place>)
    returns (blockers: seq<Blocker>, crosses: bool, ghost places: seq<Place>)
    requires i < |m.modules| && s == m.modules[i] && k < |s.dependencies| && d == s.dependencies[k]
    requires d.target == mod.id
    requires Caused(m, mod, RustOwned, Place(6, i, k, 0), start, before)
    ensures Caused(m, mod, RustOwned, Place(6, i, k + 1, 0), places, blockers)
    ensures forall b :: b in blockers <==> (b in before || IncomingBlocker(d, s, b))
    ensures crosses == Crosses(d, s.state)
  {
    hide Cause, Caused, Adjacent;
    blockers, places := before, start;
    var rs := d.reviews;
    for l := 0 to |rs|
      invariant Caused(m, mod, RustOwned, Place(6, i, k, l), places, blockers)
      invariant forall b :: b in blockers <==>
                            (b in before ||
                             (b.UnresolvedIncomingReview? && b.dependent == s.id &&
                              HasUnresolved(rs[..l], b.kind, b.file, b.line)))
    {
      assert rs[..l + 1] == rs[..l] + [rs[l]];
      IncomingReviewPlace(m, mod, i, k, l);
      places := CausedStep(
        m, mod, RustOwned, Place(6, i, k, l), Place(6, i, k, l + 1), places, blockers,
        UnresolvedIncomingReview(s.id, rs[l].kind, rs[l].file, rs[l].line), !rs[l].resolved);
      assert blockers + [] == blockers;
      if !rs[l].resolved {
        blockers := blockers + [UnresolvedIncomingReview(s.id, rs[l].kind, rs[l].file, rs[l].line)];
      }
    }
    assert rs[..|rs|] == rs;
    IncomingEdgePlace(m, mod, i, k);
    places := CausedStep(
      m, mod, RustOwned, Place(6, i, k, |rs|), Place(6, i, k + 1, 0), places, blockers,
      UnsafeIncomingBoundary(s.id, d.boundary, s.state),
      s.state != RustOwned && !d.boundary.IsAuditedCrossLanguage());
    assert blockers + [] == blockers;
    if s.state == RustOwned {
      return blockers, d.boundary != Rust, places;
    }
    if !d.boundary.IsAuditedCrossLanguage() {
      blockers := blockers + [UnsafeIncomingBoundary(s.id, d.boundary, s.state)];
    }
    return blockers, true, places;
  }

  lemma CrossingsOutStep(m: Manifest, mod: Module, k: nat)
    requires k < |mod.dependencies|
    ensures |CrossingsOut(m, mod, k + 1)| == |CrossingsOut(m, mod, k)| + if CrossingOut(m, mod, k) then 1 else 0
  {
    assert CrossingsOut(m, mod, k + 1) == CrossingsOut(m, mod, k) + if CrossingOut(m, mod, k) then {k} else {};
  }

  method AssessOutgoingBoundaries(m: Manifest, mod: Module, before: seq<Blocker>, ghost start: seq<Place>)
    returns (blockers: seq<Blocker>, edges: nat, ghost places: seq<Place>)
    requires Caused(m, mod, RustOwned, Place(5, 0, 0, 0), start, before)
    ensures Caused(m, mod, RustOwned, Place(6, 0, 0, 0), places, blockers)
    ensures forall b :: b in blockers <==>
                        (b in before || exists d, t :: Outgoing(m, mod, d, t) && OutgoingBlocker(d, t, b))
    ensures edges == |CrossingsOut(m, mod, |mod.dependencies|)|
  {
    hide Cause, Caused, Adjacent;
    blockers, edges, places := before, 0, start;
    var ds := mod.dependencies;
    for k := 0 to |ds|
      invariant Caused(m, mod, RustOwned, Place(5, k, 0, 0), places, blockers)
      invariant forall b :: b in blockers <==>
                            (b in before ||
                             exists d, t :: d in ds[..k] && Outgoing(m, mod, d, t) && OutgoingBlocker(d, t, b))
      invariant edges == |CrossingsOut(m, mod, k)|
    {
      assert ds[..k + 1] == ds[..k] + [ds[k]];
      CrossingsOutStep(m, mod, k);
      match m.FindModule(ds[k].target) {
        case None =>
          places := StageEnd(m, mod, RustOwned, Place(5, k, 0, 0), Place(5, k + 1, 0, 0), places, blockers);
        case Some(t) =>
          assert Outgoing(m, mod, ds[k], t);
          var crosses;
          blockers, crosses, places := AssessOutgoing(m, mod, k, ds[k], t, blockers, places);
          edges := edges + if crosses then 1 else 0;
      }
    }
    assert ds[..|ds|] == ds;
    places := StageEnd(m, mod, RustOwned, Place(5, |ds|, 0, 0), Place(6, 0, 0, 0), places, blockers);
  }

  method AssessIncomingOf(m: Manifest, mod: Module, i: nat, before: seq<Blocker>, ghost start: seq<Place>)
    returns (blockers: seq<Blocker>, edges: nat, ghost places: seq<Place>)
    requires i < |m.modules| && Caused(m, mod, RustOwned, Place(6, i, 0, 0), start, before)
    ensures Caused(m, mod, RustOwned, Place(6, i + 1, 0, 0), places, blockers)
    ensures forall b :: b in blockers <==>
                        (b in before ||
                         exists d :: Incoming(m, mod, d, m.modules[i]) && IncomingBlocker(d, m.modules[i], b))
    ensures edges == |CrossingsOf(m, mod, i, |m.modules[i].dependencies|)|
  {
    hide Cause, Caused, Adjacent;
    blockers, edges, places := before, 0, start;
    var s := m.modules[i];
    var ds := s.dependencies;
    for k := 0 to |ds|
      invariant Caused(m, mod, RustOwned, Place(6, i, k, 0), places, blockers)
      invariant forall b :: b in blockers <==>
                            (b in before ||
                             exists d :: d in ds[..k] && Incoming(m, mod, d, s) && IncomingBlocker(d, s, b))
      invariant edges == |CrossingsOf(m, mod, i, k)|
    {
      assert ds[..k + 1] == ds[..k] + [ds[k]];
      assert CrossingsOf(m, mod, i, k + 1) == CrossingsOf(m, mod, i, k) + if CrossingIn(m, mod, i, k) then {k} else {};
      if ds[k].target == mod.id {
        assert Incoming(m, mod, ds[k], s);
        var crosses;
        blockers, crosses, places := AssessIncoming(m, mod, i, k, ds[k], s, blockers, places);
        edges := edges + if crosses then 1 else 0;
      } else {
        places := StageEnd(m, mod, RustOwned, Place(6, i, k, 0), Place(6, i, k + 1, 0), places, blockers);
      }
    }
    assert ds[..|ds|] == ds;
    places := StageEnd(m, mod, RustOwned, Place(6, i, |ds|, 0), Place(6, i + 1, 0, 0), places, blockers);
  }

  method AssessIncomingBoundaries(m: Manifest, mod: Module, before: seq<Blocker>, ghost start: seq<Place>)
    returns (blockers: seq<Blocker>, edges: nat, ghost places: seq<Place>)
    requires Caused(m, mod, RustOwned, Place(6, 0, 0, 0), start, before)
    ensures Caused(m, mod, RustOwned, THE_END, places, blockers)
    ensures forall b :: b in blockers <==>
                        (b in before || exists d, s :: Incoming(m, mod, d, s) && IncomingBlocker(d, s, b))
    ensures edges == CrossingsIn(m, mod, |m.modules|)
  {
    hide Cause, Caused, Adjacent;
    blockers, edges, places := before, 0, start;
    for i := 0 to |m.modules|
      invariant Caused(m, mod, RustOwned, Place(6, i, 0, 0), places, blockers)
      invariant forall b :: b in blockers <==>
                            (b in before ||
                             exists d, s :: s in m.modules[..i] && Incoming(m, mod, d, s) && IncomingBlocker(d, s, b))
      invariant edges == CrossingsIn(m, mod, i)
    {
      assert m.modules[..i + 1] == m.modules[..i] + [m.modules[i]];
      var more;
      blockers, more, places := AssessIncomingOf(m, mod, i, blockers, places);
      edges := edges + more;
    }
    assert m.modules[..|m.modules|] == m.modules;
    places := StageEnd(m, mod, RustOwned, Place(6, |m.modules|, 0, 0), THE_END, places, blockers);
  }

  /** The step to this state of the first module with the id, with its blockers, its gates and its crossing edges. */
  ghost predicate IsAssessment(m: Manifest, id: string, to: MigrationState, a: Assessment) {
    && m.FindModule(id).Some?
    && var mod := m.FindModule(id).value;
       && a.mod == id && a.from == mod.state && a.to == to
       && (a.allowed <==> Permitted(m, mod, to))
       && (forall b :: b in a.blockers <==> Blocks(m, mod, to, b))
       && (exists places :: Caused(m, mod, to, THE_END, places, a.blockers))
       && a.gateCount == |mod.gates|
       && a.crossLanguageEdges == if to == RustOwned then CrossLanguageEdges(m, mod) else 0
  }

  /** Assess one step: the blockers are exactly those of `Blocks`, and the step is allowed when it is `Permitted`. */
  method AssessTransition(m: Manifest, id: string, to: MigrationState) returns (r: Result<Assessment, string>)
    ensures r.Err? <==> m.FindModule(id).None?
    ensures r.Err? ==> r.error == id
    ensures r.Ok? ==> IsAssessment(m, id, to, r.value)
  {
    if m.FindModule(id).None? {
      return Err(id);
    }
    hide Cause, Caused, Adjacent, Blocks, Permitted, CrossingsOut, CrossingsIn, HasUnresolved, OutgoingBlocker,
         IncomingBlocker, Outgoing, Incoming, GateBlocker, IsAssessment;
    var mod := m.FindModule(id).value;
    ghost var places := NothingCaused(m, mod, to);
    var blockers: seq<Blocker> := [];
    if mod.state.Next() != Some(to) {
      blockers := [InvalidTransition(mod.state.Next())];
    }
    blockers, places := AssessGates(m, mod, to, blockers, places);
    var edges := 0;
    if to == RustOwned {
      blockers, places := AssessModuleReviews(m, mod, blockers, places);
      var outgoing, incoming;
      blockers, outgoing, places := AssessOutgoingBoundaries(m, mod, blockers, places);
      blockers, incoming, places := AssessIncomingBoundaries(m, mod, blockers, places);
      edges := outgoing + incoming;
    } else {
      places := StageEnd(m, mod, to, Place(4, 0, 0, 0), THE_END, places, blockers);
    }
    AssessmentMade(m, id, to, places, blockers, edges);
    return Ok(Assessment(mod.id, mod.state, to, blockers == [], blockers, |mod.gates|, edges));
  }

  lemma AssessmentMade(
    m: Manifest, id: string, to: MigrationState, places: seq<Place>, blockers: seq<Blocker>, edges: nat)
    requires m.FindModule(id).Some? && Caused(m, m.FindModule(id).value, to, THE_END, places, blockers)
    requires edges == if to == RustOwned then CrossLanguageEdges(m, m.FindModule(id).value) else 0
    ensures var mod := m.FindModule(id).value;
            IsAssessment(m, id, to, Assessment(mod.id, mod.state, to, blockers == [], blockers, |mod.gates|, edges))
  {
    hide Caused, Blocks, Permitted, CrossLanguageEdges, Manifest.FindModule;
    var mod := m.FindModule(id).value;
    forall b ensures b in blockers <==> Blocks(m, mod, to, b) {
      CausedMeans(m, mod, to, places, blockers, b);
    }
    PermittedIffUnblocked(m, mod, to);
    assert blockers == [] <==> forall b :: b !in blockers by {
      if blockers != [] {
        assert blockers[0] in blockers;
      }
    }
    FirstWithId(m, id);
  }

  lemma FirstWithId(m: Manifest, id: string)
    requires m.FindModule(id).Some?
    ensures m.FindModule(id).value.id == id
  {
  }

  // ----- the migration frontier -----

  predicate FrontierLeq(a: Assessment, b: Assessment) {
    || a.crossLanguageEdges < b.crossLanguageEdges
    || (a.crossLanguageEdges == b.crossLanguageEdges &&
        (a.gateCount < b.gateCount || (a.gateCount == b.gateCount && StringLeq(a.mod, b.mod))))
  }

  lemma FrontierOrder()
    ensures TotalPreorder(FrontierLeq)
  {
    StringOrder();
  }

  /** The next step of the module at this position is permitted for the first module with its id. */
  ghost predicate OpenAt(m: Manifest, i: nat) {
    && i < |m.modules| && m.modules[i].state.Next().Some? && m.FindModule(m.modules[i].id).Some?
    && Permitted(m, m.FindModule(m.modules[i].id).value, m.modules[i].state.Next().value)
  }

  ghost predicate AssessedAt(m: Manifest, i: nat, a: Assessment) {
    OpenAt(m, i) && a.allowed && IsAssessment(m, m.modules[i].id, m.modules[i].state.Next().value, a)
  }

  /** The assessments of the open steps among the first modules, in their order. */
  ghost predicate AssessedAll(m: Manifest, n: nat, positions: seq<nat>, found: seq<Assessment>) {
    && |positions| == |found|
    && (forall k, l :: 0 <= k < l < |positions| ==> positions[k] < positions[l])
    && (forall k :: 0 <= k < |positions| ==> positions[k] < n && AssessedAt(m, positions[k], found[k]))
    && (forall i :: 0 <= i < n && OpenAt(m, i) ==> i in positions)
  }

  /** Exactly the open steps are listed, each with its counts; with distinct ids each module once. */
  ghost predicate IsFrontier(m: Manifest, frontier: seq<Assessment>) {
    && (forall a :: a in frontier ==> exists i :: AssessedAt(m, i, a))
    && (forall i :: OpenAt(m, i) ==> exists a :: a in frontier && AssessedAt(m, i, a))
    && (UniqueModuleIds(m) ==> forall k, l :: 0 <= k < l < |frontier| ==> frontier[k].mod != frontier[l].mod)
  }

  lemma AssessedAllStep(
    m: Manifest, n: nat, positions: seq<nat>, found: seq<Assessment>, a: Assessment)
    requires AssessedAll(m, n, positions, found) && AssessedAt(m, n, a)
    ensures AssessedAll(m, n + 1, positions + [n], found + [a])
  {
    hide AssessedAt, OpenAt;
    assert (positions + [n])[|positions|] == n;
  }

  lemma AssessedAllSkip(m: Manifest, n: nat, positions: seq<nat>, found: seq<Assessment>)
    requires AssessedAll(m, n, positions, found) && !OpenAt(m, n)
    ensures AssessedAll(m, n + 1, positions, found)
  {
    hide AssessedAt, OpenAt;
  }

  lemma AssessedMod(m: Manifest, i: nat, a: Assessment)
    requires AssessedAt(m, i, a)
    ensures i < |m.modules| && a.mod == m.modules[i].id
  {
  }

  lemma FoundIsFrontier(m: Manifest, positions: seq<nat>, found: seq<Assessment>)
    requires AssessedAll(m, |m.modules|, positions, found)
    ensures IsFrontier(m, found)
  {
    hide AssessedAt;
    forall i | OpenAt(m, i) ensures exists a :: a in found && AssessedAt(m, i, a) {
      var k :| 0 <= k < |positions| && positions[k] == i;
      assert found[k] in found;
    }
    forall k, l | UniqueModuleIds(m) && 0 <= k < l < |found| ensures found[k].mod != found[l].mod {
      AssessedMod(m, positions[k], found[k]);
      AssessedMod(m, positions[l], found[l]);
    }
  }

  lemma SortedFrontier(m: Manifest, found: seq<Assessment>)
    requires IsFrontier(m, found)
    ensures var sorted := Sort(found, FrontierLeq); SortedBy(sorted, FrontierLeq) && IsFrontier(m, sorted)
  {
    hide AssessedAt, OpenAt, FrontierLeq;
    FrontierOrder();
    SortCorrect(found, FrontierLeq);
    var sorted := Sort(found, FrontierLeq);
    assert forall a :: a in sorted <==> a in found;
    if UniqueModuleIds(m) {
      DistinctFound(found);
      SortNoDuplicates(found, FrontierLeq);
      forall k, l | 0 <= k < l < |sorted| ensures sorted[k].mod != sorted[l].mod {
        assert sorted[k] in found && sorted[l] in found && sorted[k] != sorted[l];
      }
    }
  }

  lemma DistinctFound(found: seq<Assessment>)
    requires forall k, l :: 0 <= k < l < |found| ==> found[k].mod != found[l].mod
    ensures NoDuplicates(found)
  {
  }

  /** The steps open now, the cheapest first; a repeated id is assessed at its first module. */
  method MigrationFrontier(m: Manifest) returns (frontier: seq<Assessment>)
    ensures IsFrontier(m, frontier)
    ensures forall i, j :: 0 <= i < j < |frontier| ==>
              var a, b := frontier[i], frontier[j];
              && a.crossLanguageEdges <= b.crossLanguageEdges
              && (a.crossLanguageEdges == b.crossLanguageEdges ==> a.gateCount <= b.gateCount)
              && (a.crossLanguageEdges == b.crossLanguageEdges && a.gateCount == b.gateCount ==>
                    StringLeq(a.mod, b.mod))
  {
    hide IsAssessment, Permitted, FrontierLeq;
    var found: seq<Assessment> := [];
    ghost var positions: seq<nat> := [];
    for i := 0 to |m.modules|
      invariant AssessedAll(m, i, positions, found)
    {
      var x := m.modules[i];
      var open := false;
      if x.state.Next().Some? {
        var r := AssessTransition(m, x.id, x.state.Next().value);
        AssessmentOpens(m, i, r);
        if r.Ok? && r.value.allowed {
          AssessedAllStep(m, i, positions, found, r.value);
          found, positions, open := found + [r.value], positions + [i], true;
        }
      }
      if !open {
        AssessedAllSkip(m, i, positions, found);
      }
    }
    FoundIsFrontier(m, positions, found);
    SortedFrontier(m, found);
    frontier := Sort(found, FrontierLeq);
    forall i, j | 0 <= i < j < |frontier|
      ensures var a, b := frontier[i], frontier[j];
              && a.crossLanguageEdges <= b.crossLanguageEdges
              && (a.crossLanguageEdges == b.crossLanguageEdges ==> a.gateCount <= b.gateCount)
              && (a.crossLanguageEdges == b.crossLanguageEdges && a.gateCount == b.gateCount ==>
                    StringLeq(a.mod, b.mod))
    {
      CheaperFirst(frontier[i], frontier[j]);
    }
  }

  lemma CheaperFirst(a: Assessment, b: Assessment)
    requires FrontierLeq(a, b)
    ensures a.crossLanguageEdges <= b.crossLanguageEdges
    ensures a.crossLanguageEdges == b.crossLanguageEdges ==> a.gateCount <= b.gateCount
    ensures a.crossLanguageEdges == b.crossLanguageEdges && a.gateCount == b.gateCount ==> StringLeq(a.mod, b.mod)
  {
    hide StringLeq;
  }

  lemma AssessmentOpens(m: Manifest, i: nat, r: Result<Assessment, string>)
    requires i < |m.modules| && m.modules[i].state.Next().Some?
    requires r.Err? <==> m.FindModule(m.modules[i].id).None?
    requires r.Ok? ==> IsAssessment(m, m.modules[i].id, m.modules[i].state.Next().value, r.value)
    ensures OpenAt(m, i) <==> r.Ok? && r.value.allowed
    ensures r.Ok? && r.value.allowed ==> AssessedAt(m, i, r.value)
  {
    hide Permitted;
  }
}
