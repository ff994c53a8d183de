/** The ids of imported modules, made from the labels of their targets. */
module IdAssignment {
  import opened Wrappers
  import opened Ordering
  import opened GnProject
  import opened LabelIds

  predicate Injective(m: map<string, string>) {
    forall a, b :: a in m && b in m && m[a] == m[b] ==> a == b
  }

  function IdentityLabel(p: Project, name: string): string {
    var (stem, toolchain) := SplitToolchain(name);
    if toolchain.None? || toolchain.value == p.defaultToolchain then stem else name
  }

  /** The label an id is made from lacks the default toolchain, and nothing else. */
  lemma IdentityMeans(p: Project, name: string)
    ensures forall base :: HasToolchain(name, base, p.defaultToolchain) ==> IdentityLabel(p, name) == base
    ensures (forall base :: !HasToolchain(name, base, p.defaultToolchain)) ==> IdentityLabel(p, name) == name
  {
    forall base, toolchain
      ensures SplitToolchain(name) == (base, Some(toolchain)) <==> HasToolchain(name, base, toolchain)
      ensures SplitToolchain(name).1.None? ==> SplitToolchain(name).0 == name
    {
      SplitToolchainRoundTrip(name, base, toolchain);
    }
    hide SplitToolchain, HasToolchain;
    var split := SplitToolchain(name);
    if split.1.Some? {
      assert HasToolchain(name, split.0, split.1.value);
    }
  }

  /** An id not used yet: the base, else the base with its hash, else also with the first free number from 2. */
  ghost predicate IsFresh(base: string, hash: Hash32, used: set<string>, id: string) {
    var hashed := base + "_" + Hex(hash, 8);
    && id !in used
    && (base !in used ==> id == base)
    && (base in used ==>
          || id == hashed
          || (hashed in used && exists n :: n >= 2 && id == Numbered(hashed, n) &&
                                           forall k :: 2 <= k < n ==> Numbered(hashed, k) in used))
  }

  method FreshId(base: string, hash: Hash32, used: set<string>) returns (id: string)
    requires IsId(base)
    ensures IsFresh(base, hash, used, id) && IsId(id)
  {
    hide IsId, Numbered, Hex;
    id := base;
    if id in used {
      var hashed := base + "_" + Hex(hash, 8);
      HashedIsId(base, hash);
      id := hashed;
      var sequence := 2;
      ghost var tried: set<string> := {};
      ghost var retried := false;
      while id in used
        invariant IsId(id) && sequence >= 2
        invariant id == if sequence == 2 then hashed else Numbered(hashed, sequence - 1)
        invariant sequence > 2 ==> hashed in used
        invariant forall k :: 2 <= k < sequence - 1 ==> Numbered(hashed, k) in used
        invariant forall s :: s in tried <==> exists k :: 2 <= k < sequence - 1 && s == Numbered(hashed, k)
        invariant tried <= used && |tried| == if sequence == 2 then 0 else sequence - 3
        decreases |used| + 3 - sequence
      {
        if sequence > 2 {
          assert id !in tried by {
            if id in tried {
              var k :| 2 <= k < sequence - 1 && id == Numbered(hashed, k);
              NumberedInjective(hashed, k, sequence - 1);
            }
          }
          tried := tried + {id};
          SubsetSize(tried, used);
        }
        NumberedIsId(hashed, sequence);
        id := Numbered(hashed, sequence);
        sequence := sequence + 1;
      }
    }
  }

  lemma HashedIsId(base: string, hash: Hash32)
    requires IsId(base)
    ensures IsId(base + "_" + Hex(hash, 8))
  {
  }

  lemma NumberedIsId(hashed: string, n: nat)
    requires IsId(hashed)
    ensures IsId(Numbered(hashed, n))
  {
  }

  // ----- assignment -----

  /** The ids of some labels. */
  function Taken(ids: map<string, string>, labels: seq<string>): set<string> {
    set l | l in labels && l in ids :: ids[l]
  }

  /** Label by label, each id is fresh among those before it. */
  ghost predicate AssignedInOrder(
    p: Project, hash: string -> Hash32, order: seq<string>, ids: map<string, string>)
  {
    forall i :: 0 <= i < |order| ==>
      && order[i] in ids && IsId(ids[order[i]])
      && IsFresh(IdBase(IdentityLabel(p, order[i])), hash(order[i]), Taken(ids, order[..i]), ids[order[i]])
  }

  lemma TakenSnoc(ids: map<string, string>, labels: seq<string>, last: string, id: string)
    requires last !in ids
    ensures Taken(ids[last := id], labels + [last]) == Taken(ids, labels) + {id}
  {
    var ids' := ids[last := id];
    assert last in labels + [last] && ids'[last] == id;
    forall l | l in labels && l in ids ensures ids[l] in Taken(ids', labels + [last]) {
      assert l in labels + [last] && ids'[l] == ids[l];
    }
  }

  /** One more label. */
  lemma AssignedStep(
    p: Project, hash: string -> Hash32, order: seq<string>, i: nat, ids: map<string, string>, id: string)
    requires i < |order| && order[i] !in ids && forall l :: l in ids <==> l in order[..i]
    requires AssignedInOrder(p, hash, order[..i], ids)
    requires IsId(id) && IsFresh(IdBase(IdentityLabel(p, order[i])), hash(order[i]), Taken(ids, order[..i]), id)
    ensures AssignedInOrder(p, hash, order[..i + 1], ids[order[i] := id])
    ensures Taken(ids[order[i] := id], order[..i + 1]) == Taken(ids, order[..i]) + {id}
  {
    hide IsFresh, IdBase, IsId, IdentityLabel;
    var ids' := ids[order[i] := id];
    assert order[..i + 1] == order[..i] + [order[i]];
    TakenSnoc(ids, order[..i], order[i], id);
    forall j | 0 <= j < i + 1
      ensures order[j] in ids' && IsId(ids'[order[j]])
      ensures IsFresh(IdBase(IdentityLabel(p, order[j])), hash(order[j]), Taken(ids', order[..i + 1][..j]),
                      ids'[order[j]])
    {
      assert order[..i + 1][..j] == order[..j] && forall l :: l in order[..j] ==> l in order[..i];
      assert Taken(ids', order[..j]) == Taken(ids, order[..j]);
      if j < i {
        assert order[..i][j] == order[j] && order[..i][..j] == order[..j];
      }
    }
  }

  lemma EarlierDiffers(
    p: Project, hash: string -> Hash32, order: seq<string>, ids: map<string, string>, i: nat, j: nat)
    requires i < j < |order| && AssignedInOrder(p, hash, order, ids)
    ensures ids[order[i]] != ids[order[j]]
  {
    hide IdBase, IsId, IdentityLabel;
    assert order[..j][i] == order[i];
    assert ids[order[i]] in Taken(ids, order[..j]);
  }

  /** No two ids are equal. */
  lemma AssignedMeans(
    p: Project, hash: string -> Hash32, order: seq<string>, labels: set<string>, ids: map<string, string>)
    requires InTextOrder(order, labels) && ids.Keys == labels && AssignedInOrder(p, hash, order, ids)
    ensures Injective(ids)
  {
    hide AssignedInOrder;
    forall a, b | a in ids && b in ids && ids[a] == ids[b] ensures a == b {
      var i :| 0 <= i < |order| && order[i] == a;
      var j :| 0 <= j < |order| && order[j] == b;
      if i < j {
        EarlierDiffers(p, hash, order, ids, i, j);
      } else if j < i {
        EarlierDiffers(p, hash, order, ids, j, i);
      }
    }
  }

  /** Give every label its own id, for any hash function: in the order of the labels, the base of each, the base with
      its hash when that is taken, and that with a number when both are. */
  method AssignModuleIds(p: Project, labels: set<string>, hash: string -> Hash32) returns (ids: map<string, string>)
    ensures ids.Keys == labels && Injective(ids)
    ensures IdsFor(p, hash, labels, ids)
  {
    hide IdBase, Letters, Kept, IsId, NoDoubleUnderscore, IsFresh, AssignedInOrder, IdentityLabel, Taken;
    var order := SortedTexts(labels);
    ids := map[];
    var used: set<string> := {};
    AssignedNone(p, hash, ids);
    assert order[..0] == [];
    for i := 0 to |order|
      invariant forall l :: l in ids <==> l in order[..i]
      invariant used == Taken(ids, order[..i]) && AssignedInOrder(p, hash, order[..i], ids)
    {
      assert order[..i + 1] == order[..i] + [order[i]];
      var base := SanitizeId(IdentityLabel(p, order[i]));
      var id := FreshId(base, hash(order[i]), used);
      AssignedStep(p, hash, order, i, ids, id);
      used := used + {id};
      ids := ids[order[i] := id];
    }
    assert order[..|order|] == order;
    AssignedMeans(p, hash, order, labels, ids);
  }

  lemma AssignedNone(p: Project, hash: string -> Hash32, ids: map<string, string>)
    ensures AssignedInOrder(p, hash, [], ids) && Taken(ids, []) == {}
  {
  }

  ghost predicate IdsFor(p: Project, hash: string -> Hash32, labels: set<string>, ids: map<string, string>) {
    exists order :: InTextOrder(order, labels) && AssignedInOrder(p, hash, order, ids)
  }
}
