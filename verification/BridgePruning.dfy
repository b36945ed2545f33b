/** Keeping a bridge only while a leaf device lies below it: the walk up from every leaf keeps exactly the leaves
    and all that lies above them, and ends whatever the parent keys are. */
module BridgePruning {
  import opened Wrappers

  /** The parent key of every key; "" for none. */
  type Parents = map<string, string>

  /** n steps up from k. */
  function Up(parents: Parents, k: string, n: nat): Option<string> {
    if n == 0 then Some(k)
    else
      var below := Up(parents, k, n - 1);
      if below.Some? && below.value in parents && parents[below.value] != "" then Some(parents[below.value]) else None
  }

  /** A leaf, or above one. */
  ghost predicate Above(parents: Parents, leaves: set<string>, k: string) {
    exists leaf, n: nat :: leaf in leaves && Up(parents, leaf, n) == Some(k)
  }

  lemma ParentAbove(parents: Parents, leaves: set<string>, k: string)
    requires Above(parents, leaves, k) && k in parents && parents[k] != ""
    ensures Above(parents, leaves, parents[k])
  {
    var leaf, n: nat :| leaf in leaves && Up(parents, leaf, n) == Some(k);
    assert Up(parents, leaf, n + 1) == Some(parents[k]);
  }

  /** The parent of k is kept too, if it has one. */
  predicate Closed(parents: Parents, kept: set<string>, k: string) {
    k in parents && (parents[k] == "" || parents[k] in kept)
  }

  lemma {:induction false} ClosedHoldsAbove(parents: Parents, leaves: set<string>, kept: set<string>, leaf: string,
                                            n: nat)
    requires leaf in leaves && leaves <= kept && forall k :: k in kept ==> Closed(parents, kept, k)
    requires Up(parents, leaf, n).Some?
    ensures Up(parents, leaf, n).value in kept
  {
    if n > 0 {
      ClosedHoldsAbove(parents, leaves, kept, leaf, n - 1);
    }
  }

  /** All kept keys are leaves or above one, and closed but for those not walked from yet. */
  ghost predicate Walked(parents: Parents, leaves: set<string>, kept: set<string>, todo: set<string>) {
    && leaves <= kept && (forall k :: k in kept ==> Above(parents, leaves, k))
    && (forall k :: k in kept && k !in todo ==> Closed(parents, kept, k))
  }

  /** The walk goes on from the parent. */
  lemma StepUp(parents: Parents, leaves: set<string>, kept: set<string>, todo: set<string>, below: string)
    requires Walked(parents, leaves, kept, todo + {below}) && below in kept && below in parents && parents[below] != ""
    ensures Walked(parents, leaves, kept + {parents[below]}, todo + {parents[below]})
  {
    ParentAbove(parents, leaves, below);
  }

  /** The walk ends where there is no parent, or one that is kept already. */
  lemma StepsEnd(parents: Parents, leaves: set<string>, kept: set<string>, todo: set<string>, below: string)
    requires Walked(parents, leaves, kept, todo + {below}) && Closed(parents, kept, below)
    ensures Walked(parents, leaves, kept, todo)
  {
  }

  /** The kept keys; None where a parent key has no device or bridge. */
  method Keep(parents: Parents, leaves: set<string>) returns (kept: Option<set<string>>)
    requires leaves <= parents.Keys
    ensures kept.Some? <==> forall k :: Above(parents, leaves, k) ==> k in parents
    ensures kept.Some? ==> forall k :: k in kept.value <==> Above(parents, leaves, k)
  {
    var keys, todo := leaves, leaves;
    forall k | k in leaves ensures Above(parents, leaves, k) {
      assert Up(parents, k, 0) == Some(k);
    }
    while todo != {}
      invariant todo <= leaves && Walked(parents, leaves, keys, todo)
    {
      var leaf :| leaf in todo;
      todo := todo - {leaf};
      var more := WalkUp(parents, leaves, keys, todo, leaf);
      if more.None? {
        return None;
      }
      keys := more.value;
    }
    forall k | Above(parents, leaves, k) ensures k in keys {
      var leaf, n: nat :| leaf in leaves && Up(parents, leaf, n) == Some(k);
      ClosedHoldsAbove(parents, leaves, keys, leaf, n);
    }
    kept := Some(keys);
  }

  /** Up from a leaf until there is no parent or it is kept already. */
  method WalkUp(parents: Parents, leaves: set<string>, kept: set<string>, todo: set<string>, leaf: string)
    returns (r: Option<set<string>>)
    requires leaf in leaves && leaf !in todo && leaf in parents && Walked(parents, leaves, kept, todo + {leaf})
    requires todo <= leaves
    ensures r.Some? ==> Walked(parents, leaves, r.value, todo)
    ensures r.None? ==> exists k :: Above(parents, leaves, k) && k !in parents
  {
    var keys, k := kept, parents[leaf];
    ghost var below := leaf;
    while k != ""
      invariant below in keys && below in parents && below !in todo && k == parents[below]
      invariant Walked(parents, leaves, keys, todo + {below})
      decreases parents.Keys - keys
    {
      ParentAbove(parents, leaves, below);
      if k in keys {
        break;
      }
      StepUp(parents, leaves, keys, todo, below);
      keys := keys + {k};
      if k !in parents {
        return None;
      }
      below := k;
      k := parents[k];
    }
    StepsEnd(parents, leaves, keys, todo, below);
    r := Some(keys);
  }
}
