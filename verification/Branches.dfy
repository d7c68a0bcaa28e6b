/** The branch list of a remote: one entry per branch reference, the preferred one first. */
module Branches {
  import opened SortedMap
  import opened Text
  import opened Wrappers

  datatype Branch = Branch(name: string, refName: string)

  const HEADS := "refs/heads/"

  function RefNames(branches: seq<Branch>): (names: seq<string>)
    ensures |names| == |branches|
  {
    seq(|branches|, i requires 0 <= i < |branches| => branches[i].refName)
  }

  /** What the list must be: exactly the named heads among the references, once each, in order. */
  ghost predicate IsBranchList(refs: seq<string>, branches: seq<Branch>) {
    && Ascending(RefNames(branches))
    && (forall b :: b in branches ==> b.name != "" && b.refName == HEADS + b.name && b.refName in refs)
    && (forall r :: r in refs && HEADS < r ==> Branch(r[|HEADS|..], r) in branches)
  }

  method WorkspaceBranchesFromRefs(refs: seq<string>) returns (branches: seq<Branch>)
    ensures IsBranchList(refs, branches)
  {
    var byRef: map<string, Branch> := map[];
    for i := 0 to |refs|
      invariant forall r :: r in byRef <==> r in refs[..i] && HEADS < r
      invariant forall r :: r in byRef ==> byRef[r] == Branch(r[|HEADS|..], r)
    {
      var reference := refs[i];
      if !(HEADS <= reference) {
        continue;
      }
      var name := StripPrefix(reference, HEADS);
      if name == "" {
        continue;
      }
      byRef := byRef[reference := Branch(name, reference)];
    }
    assert refs[..|refs|] == refs;
    branches := Values(byRef);
    ValuesAreBranchList(refs, byRef);
  }

  lemma ValuesAreBranchList(refs: seq<string>, byRef: map<string, Branch>)
    requires forall r :: r in byRef <==> r in refs && HEADS < r
    requires forall r :: r in byRef ==> byRef[r] == Branch(r[|HEADS|..], r)
    ensures IsBranchList(refs, Values(byRef))
  {
    var branches, keys := Values(byRef), KeysInOrder(byRef.Keys);
    assert RefNames(branches) == keys;
    forall b | b in branches ensures b.name != "" && b.refName == HEADS + b.name && b.refName in refs {
      var i :| 0 <= i < |branches| && branches[i] == b;
      assert keys[i] in byRef && b == byRef[keys[i]];
    }
    forall r | r in refs && HEADS < r ensures Branch(r[|HEADS|..], r) in branches {
      var i :| 0 <= i < |keys| && keys[i] == r;
      assert branches[i] == byRef[r];
    }
  }

  lemma SameMembers(left: seq<string>, right: seq<string>, xs: seq<Branch>, ys: seq<Branch>, b: Branch)
    requires forall r :: r in left <==> r in right
    requires IsBranchList(left, xs) && IsBranchList(right, ys) && b in xs
    ensures b in ys
  {
    assert b.refName in right && HEADS < b.refName && b.refName[|HEADS|..] == b.name;
  }

  lemma HasMember<T(!new)>(xs: seq<T>)
    ensures xs != [] ==> exists b :: b in xs
  {
    if xs != [] {
      assert xs[0] in xs;
    }
  }

  lemma {:induction false} AscendingIsUnique(xs: seq<Branch>, ys: seq<Branch>)
    requires Ascending(RefNames(xs)) && Ascending(RefNames(ys))
    requires forall b :: b in xs <==> b in ys
    ensures xs == ys
  {
    if xs == [] {
      HasMember(ys);
    } else if ys == [] {
      HasMember(xs);
    } else {
      assert xs[0] in ys && ys[0] in xs;
      HeadIsLeast(xs, ys[0]);
      HeadIsLeast(ys, xs[0]);
      LessIsStrictOrder(xs[0].refName, ys[0].refName, xs[0].refName);
      LessIsStrictOrder(ys[0].refName, ys[0].refName, ys[0].refName);
      var us, vs := xs[1..], ys[1..];
      assert RefNames(us) == RefNames(xs)[1..] && RefNames(vs) == RefNames(ys)[1..];
      TailMembers(xs);
      TailMembers(ys);
      AscendingIsUnique(us, vs);
    }
  }

  lemma HeadIsLeast(xs: seq<Branch>, b: Branch)
    requires Ascending(RefNames(xs)) && b in xs
    ensures b == xs[0] || Less(xs[0].refName, b.refName)
  {
    var i :| 0 <= i < |xs| && xs[i] == b;
    assert i > 0 ==> Less(RefNames(xs)[0], RefNames(xs)[i]);
  }

  lemma TailMembers(xs: seq<Branch>)
    requires Ascending(RefNames(xs)) && xs != []
    ensures forall b :: b in xs[1..] <==> b in xs && b != xs[0]
  {
    assert xs == [xs[0]] + xs[1..];
    if xs[0] in xs[1..] {
      var i :| 1 <= i < |xs| && xs[i] == xs[0];
      AscendingIsDistinct(RefNames(xs), 0, i);
    }
  }

  /** The list depends on which references there are, not on their order or how often they appear. */
  lemma OrderAndRepeatsPlayNoPart(left: seq<string>, right: seq<string>, xs: seq<Branch>, ys: seq<Branch>)
    requires forall r :: r in left <==> r in right
    requires IsBranchList(left, xs) && IsBranchList(right, ys)
    ensures xs == ys
  {
    forall b ensures b in xs <==> b in ys {
      if b in xs {
        SameMembers(left, right, xs, ys, b);
      } else if b in ys {
        SameMembers(right, left, ys, xs, b);
      }
    }
    AscendingIsUnique(xs, ys);
  }

  // ----- the preferred branch

  /** The first place that holds the reference. */
  function Position(branches: seq<Branch>, ref: string): (index: Option<nat>)
    ensures index.None? <==> ref !in RefNames(branches)
    ensures index.Some? ==> index.value < |branches| && branches[index.value].refName == ref
    ensures index.Some? ==> ref !in RefNames(branches)[..index.value]
  {
    if branches == [] then None
    else
      assert RefNames(branches) == [branches[0].refName] + RefNames(branches[1..]);
      if branches[0].refName == ref then Some(0)
      else
        match Position(branches[1..], ref)
        case None => None
        case Some(i) => Some(i + 1)
  }

  /** The first branch with the reference leads, and the others keep their order. */
  ghost predicate MovedToFront(branches: seq<Branch>, ref: string, result: seq<Branch>, i: nat) {
    && i < |branches|
    && branches[i].refName == ref && ref !in RefNames(branches)[..i]
    && result == [branches[i]] + branches[..i] + branches[i + 1..]
  }

  ghost predicate Prioritized(branches: seq<Branch>, preferred: Option<string>, result: seq<Branch>) {
    if preferred.Some? && preferred.value in RefNames(branches) then
      exists i: nat :: MovedToFront(branches, preferred.value, result, i)
    else
      result == branches
  }

  method PrioritizeWorkspaceBranchRef(branches: seq<Branch>, preferred: Option<string>) returns (result: seq<Branch>)
    ensures Prioritized(branches, preferred, result)
  {
    result := branches;
    if preferred.None? {
      return;
    }
    var index := Position(result, preferred.value);
    if index.None? {
      return;
    }
    var i := index.value;
    var branch := result[i];
    result := result[..i] + result[i + 1..];
    result := [branch] + result;
    assert result == [branches[i]] + branches[..i] + branches[i + 1..];
    assert MovedToFront(branches, preferred.value, result, i);
  }

  method RemoteBranches(refs: seq<string>, preferred: Option<string>) returns (branches: seq<Branch>)
    ensures exists list :: IsBranchList(refs, list) && Prioritized(list, preferred, branches)
  {
    var list := WorkspaceBranchesFromRefs(refs);
    branches := PrioritizeWorkspaceBranchRef(list, preferred);
  }

  /** Prioritising is a permutation; a listed preference leads it and the others stay in order. */
  lemma PreferredLeads(refs: seq<string>, preferred: Option<string>, list: seq<Branch>, branches: seq<Branch>)
    requires IsBranchList(refs, list) && Prioritized(list, preferred, branches)
    ensures multiset(branches) == multiset(list)
    ensures preferred.Some? && HEADS < preferred.value && preferred.value in refs ==>
              && branches != [] && branches[0].refName == preferred.value
              && Ascending(RefNames(branches[1..]))
    ensures !(preferred.Some? && HEADS < preferred.value && preferred.value in refs) ==> branches == list
  {
    if preferred.Some? {
      ListedIff(refs, list, preferred.value);
      if preferred.value in RefNames(list) {
        var i: nat :| MovedToFront(list, preferred.value, branches, i);
        MovedLeads(list, preferred.value, branches, i);
      }
    }
  }

  lemma MovedLeads(list: seq<Branch>, ref: string, branches: seq<Branch>, i: nat)
    requires Ascending(RefNames(list)) && MovedToFront(list, ref, branches, i)
    ensures multiset(branches) == multiset(list)
    ensures branches != [] && branches[0].refName == ref && Ascending(RefNames(branches[1..]))
  {
    RestIsAscending(list, i);
    assert branches[1..] == list[..i] + list[i + 1..];
    assert list == list[..i] + [list[i]] + list[i + 1..];
  }

  lemma ListedIff(refs: seq<string>, list: seq<Branch>, ref: string)
    requires IsBranchList(refs, list)
    ensures ref in RefNames(list) <==> HEADS < ref && ref in refs
  {
    if ref in RefNames(list) {
      var i :| 0 <= i < |list| && RefNames(list)[i] == ref;
      assert list[i] in list;
    }
    if HEADS < ref && ref in refs {
      var i :| 0 <= i < |list| && list[i] == Branch(ref[|HEADS|..], ref);
      assert RefNames(list)[i] == ref;
    }
  }

  lemma RestIsAscending(list: seq<Branch>, i: nat)
    requires Ascending(RefNames(list)) && i < |list|
    ensures Ascending(RefNames(list[..i] + list[i + 1..]))
  {
    var whole, rest := RefNames(list), RefNames(list[..i] + list[i + 1..]);
    forall j, k | 0 <= j < k < |rest| ensures Less(rest[j], rest[k]) {
      var l := if j < i then j else j + 1;
      var m := if k < i then k else k + 1;
      assert rest[j] == whole[l] && rest[k] == whole[m];
    }
  }
}
