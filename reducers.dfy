/** The eight per-category reducers. Each makes one pass over the fetched records,
    keeps those of its own category and builds the summary list together with the
    found flag `event_exists`; writing the result into the slot table is done by
    EventTable. Push, pull-request and issues records are grouped by repository;
    fork, watch, create, release and delete records give one row each. */
module Reducers {
  import opened Events
  import opened Grouping

  /** One commit of a push: its message and the day of the push record. */
  datatype CommitNote = CommitNote(message: string, timestamp: string)

  /** One pull-request or issue record: its action, the title of the pull request or
      issue, and the day of the record. */
  datatype ActionNote = ActionNote(action: string, title: string, timestamp: string)

  datatype ForkRow = ForkRow(repoName: string, forkedRepoName: string, timestamp: string)
  datatype WatchRow = WatchRow(repoName: string, action: string, timestamp: string)
  datatype CreateRow = CreateRow(repoName: string, timestamp: string)
  datatype ReleaseRow = ReleaseRow(repoName: string, releaseName: string, tagName: string, timestamp: string)
  datatype DeleteRow = DeleteRow(repoName: string, ref: string, refType: string, timestamp: string)

  // ---------------------------------------------------------------------------
  // Reference definitions

  /** The notes of one push record: one per commit, in payload order, each stamped
      with the day of the record's `created_at`. */
  function CommitNotes(e: Event): (notes: seq<CommitNote>)
    requires e.payload.PushPayload?
  {
    var commits := e.payload.commits;
    seq(|commits|, k requires 0 <= k < |commits| => CommitNote(commits[k], Day(e.createdAt)))
  }

  /** What the push reducer groups: one contribution per push record that has commits,
      in input order. */
  function PushContributions(data: seq<Event>): (cs: seq<Group<CommitNote>>)
  {
    if data == [] then []
    else
      var e := data[|data| - 1];
      PushContributions(data[..|data| - 1])
        + (if Contributes(e, Push) then [Group(e.repoName, CommitNotes(e))] else [])
  }

  /** The note of one pull-request or issue record. */
  function ActionNoteOf(e: Event): (note: ActionNote)
    requires e.payload.PullRequestPayload? || e.payload.IssuesPayload?
  {
    match e.payload
    case PullRequestPayload(action, title) => ActionNote(action, title, Day(e.createdAt))
    case IssuesPayload(action, title) => ActionNote(action, title, Day(e.createdAt))
  }

  /** Is `c` one of the two categories whose records become an ActionNote? */
  predicate IsActionCategory(c: Category) {
    c == PullRequest || c == Issues
  }

  /** What the pull-request (or issues) reducer groups: one single-note contribution
      per record of category `c`, in input order. */
  function ActionContributions(data: seq<Event>, c: Category): (cs: seq<Group<ActionNote>>)
    requires IsActionCategory(c)
  {
    if data == [] then []
    else
      var e := data[|data| - 1];
      ActionContributions(data[..|data| - 1], c)
        + (if Is(e, c) then [Group(e.repoName, [ActionNoteOf(e)])] else [])
  }

  /** Reference results of the five reducers that do not group: one row per record
      of the category, in input order. Release takes its day from `published_at`. */
  function ForkRows(data: seq<Event>): (rows: seq<ForkRow>)
  {
    var es := OfCategory(data, Fork);
    seq(|es|, j requires 0 <= j < |es| =>
      ForkRow(es[j].repoName, es[j].payload.forkeeFullName, Day(es[j].createdAt)))
  }

  function WatchRows(data: seq<Event>): (rows: seq<WatchRow>)
  {
    var es := OfCategory(data, Watch);
    seq(|es|, j requires 0 <= j < |es| =>
      WatchRow(es[j].repoName, es[j].payload.watchAction, Day(es[j].createdAt)))
  }

  function CreateRows(data: seq<Event>): (rows: seq<CreateRow>)
  {
    var es := OfCategory(data, Create);
    seq(|es|, j requires 0 <= j < |es| => CreateRow(es[j].repoName, Day(es[j].createdAt)))
  }

  function ReleaseRows(data: seq<Event>): (rows: seq<ReleaseRow>)
  {
    var es := OfCategory(data, Release);
    seq(|es|, j requires 0 <= j < |es| =>
      ReleaseRow(es[j].repoName, es[j].payload.name, es[j].payload.tagName, Day(es[j].payload.publishedAt)))
  }

  function DeleteRows(data: seq<Event>): (rows: seq<DeleteRow>)
  {
    var es := OfCategory(data, Delete);
    seq(|es|, j requires 0 <= j < |es| =>
      DeleteRow(es[j].repoName, es[j].payload.ref, es[j].payload.refType, Day(es[j].createdAt)))
  }

  // ---------------------------------------------------------------------------
  // The reducers' loops

  /** push_event's loop: the commit notes of every push record that has commits,
      grouped by repository; the flag says whether any such record was seen. */
  method CollectPush(data: seq<Event>) returns (repoData: seq<Group<CommitNote>>, eventExists: bool)
    ensures repoData == Grouped(PushContributions(data))
    ensures eventExists == Present(data, Push)
  {
    var repoNames: set<string> := {};
    repoData := [];
    eventExists := false;
    for i := 0 to |data|
      invariant repoData == Grouped(PushContributions(data[..i]))
      invariant forall x :: x in repoNames <==> x in Names(repoData)
      invariant eventExists == Present(data[..i], Push)
    {
      var event := data[i];
      assert data[..i + 1][..i] == data[..i];
      PresentSnoc(data, i, Push);
      ghost var seen := PushContributions(data[..i]);
      assert PushContributions(data[..i + 1]) == if Contributes(event, Push)
        then seen + [Group(event.repoName, CommitNotes(event))] else seen;
      if event.payload.PushPayload? {
        var commits := event.payload.commits;
        var commitMsg: seq<CommitNote> := [];
        if commits != [] {
          for k := 0 to |commits|
            invariant commitMsg == CommitNotes(event)[..k]
          {
            commitMsg := commitMsg + [CommitNote(commits[k], Day(event.createdAt))];
          }
          assert CommitNotes(event)[..|commits|] == CommitNotes(event);
        } else {
          continue;
        }
        repoNames, repoData := AddToGroups(seen, repoNames, repoData, event.repoName, commitMsg);
        eventExists := true;
      }
    }
    assert data[..|data|] == data;
  }

  /** The loop shared by pull_request_event and issues_event: one note per record
      of category `c`, grouped by repository; the flag says whether any was seen. */
  method CollectActions(data: seq<Event>, c: Category) returns (repoData: seq<Group<ActionNote>>, eventExists: bool)
    requires IsActionCategory(c)
    ensures repoData == Grouped(ActionContributions(data, c))
    ensures eventExists == Present(data, c)
  {
    var repoNames: set<string> := {};
    repoData := [];
    eventExists := false;
    for i := 0 to |data|
      invariant repoData == Grouped(ActionContributions(data[..i], c))
      invariant forall x :: x in repoNames <==> x in Names(repoData)
      invariant eventExists == Present(data[..i], c)
    {
      var event := data[i];
      assert data[..i + 1][..i] == data[..i];
      PresentSnoc(data, i, c);
      ghost var seen := ActionContributions(data[..i], c);
      assert ActionContributions(data[..i + 1], c) == if Is(event, c)
        then seen + [Group(event.repoName, [ActionNoteOf(event)])] else seen;
      if Is(event, c) {
        var note := ActionNoteOf(event);
        repoNames, repoData := AddToGroups(seen, repoNames, repoData, event.repoName, [note]);
        eventExists := true;
      }
    }
    assert data[..|data|] == data;
  }

  /** fork_event's loop: one row per fork record, in input order. */
  method CollectFork(data: seq<Event>) returns (repoData: seq<ForkRow>, eventExists: bool)
    ensures repoData == ForkRows(data)
    ensures eventExists == Present(data, Fork)
  {
    repoData := [];
    eventExists := false;
    for i := 0 to |data|
      invariant repoData == ForkRows(data[..i])
      invariant eventExists == Present(data[..i], Fork)
    {
      var event := data[i];
      OfCategorySnoc(data, i, Fork);
      PresentSnoc(data, i, Fork);
      if event.payload.ForkPayload? {
        repoData := repoData + [ForkRow(event.repoName, event.payload.forkeeFullName, Day(event.createdAt))];
        eventExists := true;
      }
    }
    assert data[..|data|] == data;
  }

  /** watch_event's loop: one row per watch record, in input order. */
  method CollectWatch(data: seq<Event>) returns (repoData: seq<WatchRow>, eventExists: bool)
    ensures repoData == WatchRows(data)
    ensures eventExists == Present(data, Watch)
  {
    repoData := [];
    eventExists := false;
    for i := 0 to |data|
      invariant repoData == WatchRows(data[..i])
      invariant eventExists == Present(data[..i], Watch)
    {
      var event := data[i];
      OfCategorySnoc(data, i, Watch);
      PresentSnoc(data, i, Watch);
      if event.payload.WatchPayload? {
        repoData := repoData + [WatchRow(event.repoName, event.payload.watchAction, Day(event.createdAt))];
        eventExists := true;
      }
    }
    assert data[..|data|] == data;
  }

  /** create_event's loop: one row per create record, in input order. */
  method CollectCreate(data: seq<Event>) returns (repoData: seq<CreateRow>, eventExists: bool)
    ensures repoData == CreateRows(data)
    ensures eventExists == Present(data, Create)
  {
    repoData := [];
    eventExists := false;
    for i := 0 to |data|
      invariant repoData == CreateRows(data[..i])
      invariant eventExists == Present(data[..i], Create)
    {
      var event := data[i];
      OfCategorySnoc(data, i, Create);
      PresentSnoc(data, i, Create);
      if event.payload.CreatePayload? {
        repoData := repoData + [CreateRow(event.repoName, Day(event.createdAt))];
        eventExists := true;
      }
    }
    assert data[..|data|] == data;
  }

  /** release_event's loop: one row per release record, in input order, dated by the
      release's `published_at` rather than the record's `created_at`. */
  method CollectRelease(data: seq<Event>) returns (repoData: seq<ReleaseRow>, eventExists: bool)
    ensures repoData == ReleaseRows(data)
    ensures eventExists == Present(data, Release)
  {
    repoData := [];
    eventExists := false;
    for i := 0 to |data|
      invariant repoData == ReleaseRows(data[..i])
      invariant eventExists == Present(data[..i], Release)
    {
      var event := data[i];
      OfCategorySnoc(data, i, Release);
      PresentSnoc(data, i, Release);
      if event.payload.ReleasePayload? {
        var p := event.payload;
        repoData := repoData + [ReleaseRow(event.repoName, p.name, p.tagName, Day(p.publishedAt))];
        eventExists := true;
      }
    }
    assert data[..|data|] == data;
  }

  /** delete_event's loop: one row per delete record, in input order. */
  method CollectDelete(data: seq<Event>) returns (repoData: seq<DeleteRow>, eventExists: bool)
    ensures repoData == DeleteRows(data)
    ensures eventExists == Present(data, Delete)
  {
    repoData := [];
    eventExists := false;
    for i := 0 to |data|
      invariant repoData == DeleteRows(data[..i])
      invariant eventExists == Present(data[..i], Delete)
    {
      var event := data[i];
      OfCategorySnoc(data, i, Delete);
      PresentSnoc(data, i, Delete);
      if event.payload.DeletePayload? {
        var p := event.payload;
        repoData := repoData + [DeleteRow(event.repoName, p.ref, p.refType, Day(event.createdAt))];
        eventExists := true;
      }
    }
    assert data[..|data|] == data;
  }

  // ---------------------------------------------------------------------------
  // What the reducers promise

  /** Every commit note of the push records of repository `name`, in input order,
      including (as nothing) those of pushes without commits. */
  function PushNotesOf(data: seq<Event>, name: string): (notes: seq<CommitNote>)
  {
    if data == [] then []
    else
      var e := data[|data| - 1];
      PushNotesOf(data[..|data| - 1], name)
        + (if e.payload.PushPayload? && e.repoName == name then CommitNotes(e) else [])
  }

  /** Total number of commits in the push records of repository `name`. */
  function CommitCount(data: seq<Event>, name: string): (n: nat)
  {
    if data == [] then 0
    else
      var e := data[|data| - 1];
      CommitCount(data[..|data| - 1], name)
        + (if e.payload.PushPayload? && e.repoName == name then |e.payload.commits| else 0)
  }

  /** A repository has a push group exactly when some push record of it has commits. */
  lemma {:induction false} PushContributorNames(data: seq<Event>, x: string)
    ensures x in Names(PushContributions(data)) <==> HasContributor(data, Push, x)
  {
    if data != [] {
      var n := |data| - 1;
      var e := data[n];
      PushContributorNames(data[..n], x);
      HasContributorSnoc(data, n, Push, x);
      assert data[..n + 1] == data;
      var cs := PushContributions(data[..n]);
      if Contributes(e, Push) {
        assert PushContributions(data) == cs + [Group(e.repoName, CommitNotes(e))];
        NamesSnoc(cs, Group(e.repoName, CommitNotes(e)));
      } else {
        assert PushContributions(data) == cs;
      }
    }
  }

  /** The notes filed under `name` are all commits of that repository's push records. */
  lemma {:induction false} PushNotesFor(data: seq<Event>, name: string)
    ensures NotesFor(PushContributions(data), name) == PushNotesOf(data, name)
  {
    if data != [] {
      var n := |data| - 1;
      var e := data[n];
      PushNotesFor(data[..n], name);
      var cs := PushContributions(data[..n]);
      if Contributes(e, Push) {
        assert PushContributions(data) == cs + [Group(e.repoName, CommitNotes(e))];
        NotesForSnoc(cs, Group(e.repoName, CommitNotes(e)), name);
      } else {
        assert PushContributions(data) == cs;
        if e.payload.PushPayload? {
          assert CommitNotes(e) == [];
        }
      }
    }
  }

  /** One note per commit: "Pushed N commit(s)" counts every commit of the repository. */
  lemma {:induction false} PushNotesCount(data: seq<Event>, name: string)
    ensures |PushNotesOf(data, name)| == CommitCount(data, name)
  {
    if data != [] {
      PushNotesCount(data[..|data| - 1], name);
    }
  }

  /** The push reducer finds something exactly when it produces a group. */
  lemma {:induction false} PushFoundIffGroups(data: seq<Event>)
    ensures Present(data, Push) <==> PushContributions(data) != []
  {
    if data != [] {
      var n := |data| - 1;
      PushFoundIffGroups(data[..n]);
      PresentSnoc(data, n, Push);
      assert data[..n + 1] == data;
    }
  }

  /** The push summary, stated on the records: one group per repository that has a
      push with commits, no repository twice, the groups in the order in which their
      first such push appears, each holding every commit of that repository's pushes
      in input order (as many notes as commits), and no group at all exactly when no
      push has a commit. */
  lemma PushSummarySpec(data: seq<Event>)
    ensures var cs := PushContributions(data); var g := Grouped(cs);
      && Distinct(Names(g))
      && (forall x :: x in Names(g) <==> x in Names(cs))
      && (forall x :: x in Names(g) <==> HasContributor(data, Push, x))
      && (forall j, k :: 0 <= j < k < |g| ==>
            FirstIndex(Names(cs), g[j].repoName) < FirstIndex(Names(cs), g[k].repoName))
      && (forall k :: 0 <= k < |g| ==>
            g[k].notes == PushNotesOf(data, g[k].repoName)
            && |g[k].notes| == CommitCount(data, g[k].repoName))
      && (g == [] <==> !Present(data, Push))
  {
    var cs := PushContributions(data);
    GroupedSpec(cs);
    PushFoundIffGroups(data);
    forall x
      ensures x in Names(cs) <==> HasContributor(data, Push, x)
    {
      PushContributorNames(data, x);
    }
    forall name
      ensures NotesFor(cs, name) == PushNotesOf(data, name)
      ensures |PushNotesOf(data, name)| == CommitCount(data, name)
    {
      PushNotesFor(data, name);
      PushNotesCount(data, name);
    }
  }

  /** A push record without commits changes nothing, wherever it stands: no group,
      no note, and the found flag is not set on its account. */
  lemma {:induction false} EmptyPushIgnored(before: seq<Event>, e: Event, after: seq<Event>)
    requires e.payload == PushPayload([])
    ensures PushContributions(before + [e] + after) == PushContributions(before + after)
    ensures Present(before + [e] + after, Push) <==> Present(before + after, Push)
  {
    if after == [] {
      assert before + [e] + after == before + [e];
      assert (before + [e])[..|before|] == before;
      assert before + after == before;
    } else {
      var n := |after| - 1;
      var after', y := after[..n], after[n];
      EmptyPushIgnored(before, e, after');
      assert (before + [e] + after)[..|before| + 1 + n] == before + [e] + after';
      assert (before + after)[..|before| + n] == before + after';
    }
    PushFoundIffGroups(before + [e] + after);
    PushFoundIffGroups(before + after);
  }

  /** Every note of the pull-request (or issues) records of repository `name`, in
      input order. */
  function ActionNotesOf(data: seq<Event>, c: Category, name: string): (notes: seq<ActionNote>)
    requires IsActionCategory(c)
  {
    if data == [] then []
    else
      var e := data[|data| - 1];
      ActionNotesOf(data[..|data| - 1], c, name)
        + (if Is(e, c) && e.repoName == name then [ActionNoteOf(e)] else [])
  }

  /** A repository has a group exactly when some record of category `c` names it. */
  lemma {:induction false} ActionContributorNames(data: seq<Event>, c: Category, x: string)
    requires IsActionCategory(c)
    ensures x in Names(ActionContributions(data, c)) <==> HasContributor(data, c, x)
  {
    if data != [] {
      var n := |data| - 1;
      var e := data[n];
      ActionContributorNames(data[..n], c, x);
      HasContributorSnoc(data, n, c, x);
      assert data[..n + 1] == data;
      var cs := ActionContributions(data[..n], c);
      if Is(e, c) {
        assert ActionContributions(data, c) == cs + [Group(e.repoName, [ActionNoteOf(e)])];
        NamesSnoc(cs, Group(e.repoName, [ActionNoteOf(e)]));
      } else {
        assert ActionContributions(data, c) == cs;
      }
    }
  }

  /** The notes filed under `name` are the notes of that repository's records. */
  lemma {:induction false} ActionNotesFor(data: seq<Event>, c: Category, name: string)
    requires IsActionCategory(c)
    ensures NotesFor(ActionContributions(data, c), name) == ActionNotesOf(data, c, name)
  {
    if data != [] {
      var n := |data| - 1;
      var e := data[n];
      ActionNotesFor(data[..n], c, name);
      var cs := ActionContributions(data[..n], c);
      if Is(e, c) {
        assert ActionContributions(data, c) == cs + [Group(e.repoName, [ActionNoteOf(e)])];
        NotesForSnoc(cs, Group(e.repoName, [ActionNoteOf(e)]), name);
      } else {
        assert ActionContributions(data, c) == cs;
      }
    }
  }

  /** The pull-request or issues reducer finds something exactly when it produces a group. */
  lemma {:induction false} ActionFoundIffGroups(data: seq<Event>, c: Category)
    requires IsActionCategory(c)
    ensures Present(data, c) <==> ActionContributions(data, c) != []
  {
    if data != [] {
      var n := |data| - 1;
      ActionFoundIffGroups(data[..n], c);
      PresentSnoc(data, n, c);
      assert data[..n + 1] == data;
    }
  }

  /** The pull-request and issues summaries, stated on the records: one group per
      repository that has a record of the category, no repository twice, groups in
      order of first record, each holding the note of every record of that repository
      in input order, and no group exactly when there is no such record. */
  lemma ActionSummarySpec(data: seq<Event>, c: Category)
    requires IsActionCategory(c)
    ensures var cs := ActionContributions(data, c); var g := Grouped(cs);
      && Distinct(Names(g))
      && (forall x :: x in Names(g) <==> x in Names(cs))
      && (forall x :: x in Names(g) <==> HasContributor(data, c, x))
      && (forall j, k :: 0 <= j < k < |g| ==>
            FirstIndex(Names(cs), g[j].repoName) < FirstIndex(Names(cs), g[k].repoName))
      && (forall k :: 0 <= k < |g| ==> g[k].notes == ActionNotesOf(data, c, g[k].repoName))
      && (g == [] <==> !Present(data, c))
  {
    var cs := ActionContributions(data, c);
    GroupedSpec(cs);
    ActionFoundIffGroups(data, c);
    forall x
      ensures x in Names(cs) <==> HasContributor(data, c, x)
    {
      ActionContributorNames(data, c, x);
    }
    forall name
      ensures NotesFor(cs, name) == ActionNotesOf(data, c, name)
    {
      ActionNotesFor(data, c, name);
    }
  }

  /** For the categories that are not pushes, a record contributes exactly when it
      has the category: OfCategory is empty exactly when nothing was found. */
  lemma {:induction false} OfCategoryFound(data: seq<Event>, c: Category)
    requires c != Push
    ensures OfCategory(data, c) == [] <==> !Present(data, c)
  {
    if data != [] {
      var n := |data| - 1;
      OfCategoryFound(data[..n], c);
      PresentSnoc(data, n, c);
      assert data[..n + 1] == data;
    }
  }

  /** Fork: one row per fork record, in input order, none dropped or merged; the row
      names the forked repository and the new fork and is dated by `created_at`. */
  lemma ForkRowsSpec(data: seq<Event>)
    ensures var idx, rows := MatchIndices(data, Fork), ForkRows(data);
      && Positions(idx, data, Fork)
      && |rows| == |idx|
      && (forall j :: 0 <= j < |idx| ==> (idx[j] < |data| && data[idx[j]].payload.ForkPayload?
            && rows[j] == ForkRow(data[idx[j]].repoName, data[idx[j]].payload.forkeeFullName,
                                  Day(data[idx[j]].createdAt))))
      && (rows == [] <==> !Present(data, Fork))
  {
    OfCategoryIndexed(data, Fork);
    OfCategoryFound(data, Fork);
  }

  /** Watch: one row per watch record, in input order, dated by `created_at`. */
  lemma WatchRowsSpec(data: seq<Event>)
    ensures var idx, rows := MatchIndices(data, Watch), WatchRows(data);
      && Positions(idx, data, Watch)
      && |rows| == |idx|
      && (forall j :: 0 <= j < |idx| ==> (idx[j] < |data| && data[idx[j]].payload.WatchPayload?
            && rows[j] == WatchRow(data[idx[j]].repoName, data[idx[j]].payload.watchAction,
                                   Day(data[idx[j]].createdAt))))
      && (rows == [] <==> !Present(data, Watch))
  {
    OfCategoryIndexed(data, Watch);
    OfCategoryFound(data, Watch);
  }

  /** Create: one row per create record, in input order, dated by `created_at`. */
  lemma CreateRowsSpec(data: seq<Event>)
    ensures var idx, rows := MatchIndices(data, Create), CreateRows(data);
      && Positions(idx, data, Create)
      && |rows| == |idx|
      && (forall j :: 0 <= j < |idx| ==> (idx[j] < |data| && data[idx[j]].payload.CreatePayload?
            && rows[j] == CreateRow(data[idx[j]].repoName, Day(data[idx[j]].createdAt))))
      && (rows == [] <==> !Present(data, Create))
  {
    OfCategoryIndexed(data, Create);
    OfCategoryFound(data, Create);
  }

  /** Release: one row per release record, in input order, dated by the release's
      `published_at`, not by the record's `created_at`. */
  lemma ReleaseRowsSpec(data: seq<Event>)
    ensures var idx, rows := MatchIndices(data, Release), ReleaseRows(data);
      && Positions(idx, data, Release)
      && |rows| == |idx|
      && (forall j :: 0 <= j < |idx| ==> (idx[j] < |data| && data[idx[j]].payload.ReleasePayload?
            && rows[j] == ReleaseRow(data[idx[j]].repoName, data[idx[j]].payload.name,
                                     data[idx[j]].payload.tagName,
                                     Day(data[idx[j]].payload.publishedAt))))
      && (rows == [] <==> !Present(data, Release))
  {
    OfCategoryIndexed(data, Release);
    OfCategoryFound(data, Release);
  }

  /** Delete: one row per delete record, in input order, dated by `created_at`. */
  lemma DeleteRowsSpec(data: seq<Event>)
    ensures var idx, rows := MatchIndices(data, Delete), DeleteRows(data);
      && Positions(idx, data, Delete)
      && |rows| == |idx|
      && (forall j :: 0 <= j < |idx| ==> (idx[j] < |data| && data[idx[j]].payload.DeletePayload?
            && rows[j] == DeleteRow(data[idx[j]].repoName, data[idx[j]].payload.ref,
                                    data[idx[j]].payload.refType, Day(data[idx[j]].createdAt))))
      && (rows == [] <==> !Present(data, Delete))
  {
    OfCategoryIndexed(data, Delete);
    OfCategoryFound(data, Delete);
  }
}
