/** Grouping by repository name, shared by the push, pull-request and issues reducers:
    a set of names already seen (`repo_names`) next to a list of groups (`repo_data`). */
module Grouping {

  /** The notes gathered under one repository name. The contribution of a single
      record has the same shape: its repository name and the notes it brings. */
  datatype Group<N> = Group(repoName: string, notes: seq<N>)

  /** The repository name of each element, in order. */
  function Names<N>(gs: seq<Group<N>>): (names: seq<string>)
    ensures |names| == |gs|
    ensures forall i :: 0 <= i < |gs| ==> names[i] == gs[i].repoName
  {
    if gs == [] then [] else Names(gs[..|gs| - 1]) + [gs[|gs| - 1].repoName]
  }

  /** No name occurs twice in `s`. */
  predicate Distinct(s: seq<string>) {
    forall i, j :: 0 <= i < j < |s| ==> s[i] != s[j]
  }

  /** Position of the first occurrence of `x` in `s`. */
  function FirstIndex(s: seq<string>, x: string): (i: nat)
    requires x in s
    ensures i < |s| && s[i] == x && x !in s[..i]
  {
    if s[0] == x then 0 else 1 + FirstIndex(s[1..], x)
  }

  /** The names of `s`, each kept at its first occurrence only. */
  function FirstSeen(s: seq<string>): (d: seq<string>)
  {
    if s == [] then []
    else
      var d := FirstSeen(s[..|s| - 1]);
      if s[|s| - 1] in d then d else d + [s[|s| - 1]]
  }

  /** All notes contributed under `name`, in input order. */
  function NotesFor<N>(cs: seq<Group<N>>, name: string): (notes: seq<N>)
  {
    if cs == [] then []
    else
      var last := cs[|cs| - 1];
      NotesFor(cs[..|cs| - 1], name) + (if last.repoName == name then last.notes else [])
  }

  /** Reference definition of grouping the contributions `cs`: one group per distinct
      repository name, in order of first appearance, holding every note contributed
      under that name, in input order. */
  function Grouped<N>(cs: seq<Group<N>>): (groups: seq<Group<N>>)
  {
    var d := FirstSeen(Names(cs));
    seq(|d|, k requires 0 <= k < |d| => Group(d[k], NotesFor(cs, d[k])))
  }

  /** `groups` with `notes` appended to the notes of every group named `name`. */
  function Extend<N>(groups: seq<Group<N>>, name: string, notes: seq<N>): (r: seq<Group<N>>)
    ensures |r| == |groups|
    ensures forall k :: 0 <= k < |r| ==> r[k].repoName == groups[k].repoName
  {
    seq(|groups|, k requires 0 <= k < |groups| =>
      if groups[k].repoName == name then Group(name, groups[k].notes + notes) else groups[k])
  }

  /** Appending a name to `s` leaves the first occurrence of every earlier name in place. */
  lemma FirstIndexSnoc(s: seq<string>, y: string, x: string)
    requires x in s
    ensures FirstIndex(s + [y], x) == FirstIndex(s, x)
  {
    var i, i' := FirstIndex(s, x), FirstIndex(s + [y], x);
    assert (s + [y])[..i + 1] == s[..i + 1];
    assert x in (s + [y])[..i + 1];
  }

  /** FirstSeen lists every name of `s` exactly once, in order of first occurrence. */
  lemma {:induction false} FirstSeenSpec(s: seq<string>)
    ensures Distinct(FirstSeen(s))
    ensures forall x :: x in FirstSeen(s) <==> x in s
    ensures forall j, k :: 0 <= j < k < |FirstSeen(s)| ==>
      FirstIndex(s, FirstSeen(s)[j]) < FirstIndex(s, FirstSeen(s)[k])
  {
    if s != [] {
      var n := |s| - 1;
      var pre, y := s[..n], s[n];
      assert s == pre + [y];
      FirstSeenSpec(pre);
      var d := FirstSeen(pre);
      forall x | x in pre
        ensures FirstIndex(s, x) == FirstIndex(pre, x)
      {
        FirstIndexSnoc(pre, y, x);
      }
      if y !in d {
        assert FirstIndex(s, y) == n by {
          assert y !in s[..n];
        }
        forall j | 0 <= j < |d|
          ensures FirstIndex(s, d[j]) < n
        {
          assert d[j] in pre;
        }
      }
    }
  }

  /** No note is filed under a name that contributed nothing. */
  lemma {:induction false} NotesForAbsent<N>(cs: seq<Group<N>>, name: string)
    requires name !in Names(cs)
    ensures NotesFor(cs, name) == []
  {
    if cs != [] {
      var pre := cs[..|cs| - 1];
      assert forall i :: 0 <= i < |pre| ==> Names(pre)[i] == Names(cs)[i];
      NotesForAbsent(pre, name);
      assert Names(cs)[|cs| - 1] == cs[|cs| - 1].repoName;
    }
  }

  /** Grouping yields no group exactly when there is no contribution. */
  lemma GroupedEmpty<N>(cs: seq<Group<N>>)
    ensures Grouped(cs) == [] <==> cs == []
  {
    if cs != [] {
      FirstSeenSpec(Names(cs));
      assert Names(cs)[0] in FirstSeen(Names(cs));
    }
  }

  /** What Grouped promises: the groups carry distinct names, exactly the names of
      the contributions, in order of first contribution, and each group holds all the
      notes contributed under its name, in input order. */
  lemma GroupedSpec<N>(cs: seq<Group<N>>)
    ensures var g := Grouped(cs);
      && Distinct(Names(g))
      && (forall x :: x in Names(g) <==> x in Names(cs))
      && (forall j, k :: 0 <= j < k < |g| ==>
            FirstIndex(Names(cs), g[j].repoName) < FirstIndex(Names(cs), g[k].repoName))
      && (forall k :: 0 <= k < |g| ==> g[k].notes == NotesFor(cs, g[k].repoName))
      && (g == [] <==> cs == [])
  {
    var g := Grouped(cs);
    var d := FirstSeen(Names(cs));
    FirstSeenSpec(Names(cs));
    assert Names(g) == d;
    if cs != [] {
      assert Names(cs)[0] in d;
    }
  }

  /** One more contribution adds its notes to its own name and to no other. */
  lemma NotesForSnoc<N>(cs: seq<Group<N>>, x: Group<N>, m: string)
    ensures NotesFor(cs + [x], m) == NotesFor(cs, m) + (if x.repoName == m then x.notes else [])
  {
    assert (cs + [x])[..|cs|] == cs;
  }

  /** One more contribution adds its name at the end of the list of names. */
  lemma NamesSnoc<N>(cs: seq<Group<N>>, x: Group<N>)
    ensures Names(cs + [x]) == Names(cs) + [x.repoName]
  {
    assert (cs + [x])[..|cs|] == cs;
  }

  /** Adding one contribution `x` to `cs`: a new name opens a group at the end, a known
      name extends its group and leaves every other group as it was. */
  lemma GroupedSnoc<N>(cs: seq<Group<N>>, x: Group<N>)
    ensures Grouped(cs + [x]) == if x.repoName in Names(cs)
      then Extend(Grouped(cs), x.repoName, x.notes)
      else Grouped(cs) + [x]
  {
    var cs', ns := cs + [x], Names(cs);
    NamesSnoc(cs, x);
    assert (ns + [x.repoName])[..|ns|] == ns;
    FirstSeenSpec(ns);
    var d := FirstSeen(ns);
    var g, g' := Grouped(cs), Grouped(cs');
    forall k | 0 <= k < |d|
      ensures g'[k] == if d[k] == x.repoName then Group(d[k], g[k].notes + x.notes) else g[k]
    {
      NotesForSnoc(cs, x, d[k]);
    }
    if x.repoName in ns {
      assert g' == Extend(g, x.repoName, x.notes);
    } else {
      NotesForAbsent(cs, x.repoName);
      NotesForSnoc(cs, x, x.repoName);
      assert g'[|g|] == x;
      assert g' == g + [x];
    }
  }

  /** A contribution under a name not yet grouped opens a new group at the end. */
  lemma NewNameStep<N>(seen: seq<Group<N>>, x: Group<N>)
    requires x.repoName !in Names(Grouped(seen))
    ensures Grouped(seen + [x]) == Grouped(seen) + [x]
    ensures Names(Grouped(seen) + [x]) == Names(Grouped(seen)) + [x.repoName]
  {
    GroupedSpec(seen);
    GroupedSnoc(seen, x);
    NamesSnoc(Grouped(seen), x);
  }

  /** A contribution under a name already grouped extends that group and keeps the names. */
  lemma KnownNameStep<N>(seen: seq<Group<N>>, x: Group<N>)
    requires x.repoName in Names(Grouped(seen))
    ensures Grouped(seen + [x]) == Extend(Grouped(seen), x.repoName, x.notes)
    ensures Names(Extend(Grouped(seen), x.repoName, x.notes)) == Names(Grouped(seen))
  {
    FirstSeenSpec(Names(seen));
    assert Names(Grouped(seen)) == FirstSeen(Names(seen));
    GroupedSnoc(seen, x);
  }

  /** One step of a grouping reducer: record the contribution `notes` of a record of
      repository `name`. A name not in `repoNames` is added and opens a new group at
      the end of `repoData`; a name already seen is searched for in `repoData` and
      its group's notes are extended. When `repoData` is the grouping of the
      contributions `seen` so far, the result is the grouping of `seen` and this one. */
  method AddToGroups<N>(ghost seen: seq<Group<N>>, repoNames: set<string>, repoData: seq<Group<N>>,
                        name: string, notes: seq<N>)
    returns (newNames: set<string>, newData: seq<Group<N>>)
    requires repoData == Grouped(seen)
    requires forall x :: x in repoNames <==> x in Names(repoData)
    ensures newData == Grouped(seen + [Group(name, notes)])
    ensures forall x :: x in newNames <==> x in Names(newData)
    ensures newNames == repoNames + {name}
  {
    if name !in repoNames {
      newNames := repoNames + {name};
      newData := repoData + [Group(name, notes)];
      NewNameStep(seen, Group(name, notes));
    } else {
      newNames := repoNames;
      newData := repoData;
      var j := 0;
      while j < |newData|
        invariant 0 <= j <= |newData| == |repoData|
        invariant forall k :: 0 <= k < j ==> newData[k] == Extend(repoData, name, notes)[k]
        invariant forall k :: j <= k < |newData| ==> newData[k] == repoData[k]
      {
        if newData[j].repoName == name {
          newData := newData[j := Group(name, newData[j].notes + notes)];
        }
        j := j + 1;
      }
      assert newData == Extend(repoData, name, notes);
      KnownNameStep(seen, Group(name, notes));
    }
  }
}
