/** The result table `repo_event_info`: eight slots, one per category, each written
    only by its own reducer; and `main`, which checks the flags and runs the selected
    reducers over the fetched records. */
module EventTable {
  import opened Events
  import opened Grouping
  import opened Reducers
  import opened Selection

  /** The summary list a reducer stores, tagged with its category. */
  datatype Summary =
    | PushSummary(pushGroups: seq<Group<CommitNote>>)
    | PullRequestSummary(prGroups: seq<Group<ActionNote>>)
    | IssuesSummary(issueGroups: seq<Group<ActionNote>>)
    | ForkSummary(forkRows: seq<ForkRow>)
    | WatchSummary(watchRows: seq<WatchRow>)
    | CreateSummary(createRows: seq<CreateRow>)
    | ReleaseSummary(releaseRows: seq<ReleaseRow>)
    | DeleteSummary(deleteRows: seq<DeleteRow>)
  {
    /** The category whose reducer builds a summary of this shape. */
    function Kind(): (c: Category) {
      match this
      case PushSummary(_) => Push
      case PullRequestSummary(_) => PullRequest
      case IssuesSummary(_) => Issues
      case ForkSummary(_) => Fork
      case WatchSummary(_) => Watch
      case CreateSummary(_) => Create
      case ReleaseSummary(_) => Release
      case DeleteSummary(_) => Delete
    }

    /** The summary list is empty. */
    predicate IsEmpty() {
      match this
      case PushSummary(l) => l == []
      case PullRequestSummary(l) => l == []
      case IssuesSummary(l) => l == []
      case ForkSummary(l) => l == []
      case WatchSummary(l) => l == []
      case CreateSummary(l) => l == []
      case ReleaseSummary(l) => l == []
      case DeleteSummary(l) => l == []
    }
  }

  /** The `info` of a slot: `None` until its reducer runs, the sentinel string
      "Event does not exist" when the reducer found nothing, else the summary list. */
  datatype Slot = NotRequested | NotFound | Found(summary: Summary)

  /** Reference summary list of category `c` over the records `data`. */
  function SummaryOf(c: Category, data: seq<Event>): (summary: Summary)
  {
    match c
    case Push => PushSummary(Grouped(PushContributions(data)))
    case PullRequest => PullRequestSummary(Grouped(ActionContributions(data, PullRequest)))
    case Issues => IssuesSummary(Grouped(ActionContributions(data, Issues)))
    case Fork => ForkSummary(ForkRows(data))
    case Watch => WatchSummary(WatchRows(data))
    case Create => CreateSummary(CreateRows(data))
    case Release => ReleaseSummary(ReleaseRows(data))
    case Delete => DeleteSummary(DeleteRows(data))
  }

  /** Reference value of the slot of `c` after its reducer has run over `data`: the
      summary list when the found flag is set, otherwise the sentinel. */
  function SlotFor(c: Category, data: seq<Event>): (slot: Slot)
  {
    if Present(data, c) then Found(SummaryOf(c, data)) else NotFound
  }

  /** A slot that was written holds the sentinel exactly when the summary list would
      have been empty: the sentinel never hides a summary, and no empty list is ever
      stored. A stored summary is always of the slot's own category. */
  lemma SlotSpec(c: Category, data: seq<Event>)
    ensures SlotFor(c, data) != NotRequested
    ensures SlotFor(c, data) == NotFound <==> SummaryOf(c, data).IsEmpty()
    ensures SlotFor(c, data).Found? ==> SlotFor(c, data).summary.Kind() == c
  {
    match c
    case Push =>
      PushFoundIffGroups(data);
      GroupedEmpty(PushContributions(data));
    case PullRequest =>
      ActionFoundIffGroups(data, PullRequest);
      GroupedEmpty(ActionContributions(data, PullRequest));
    case Issues =>
      ActionFoundIffGroups(data, Issues);
      GroupedEmpty(ActionContributions(data, Issues));
    case Fork => OfCategoryFound(data, Fork);
    case Watch => OfCategoryFound(data, Watch);
    case Create => OfCategoryFound(data, Create);
    case Release => OfCategoryFound(data, Release);
    case Delete => OfCategoryFound(data, Delete);
  }

  /** `repo_event_info`: the slot of category `c` sits at position Index(c). */
  class EventInfoTable {
    var info: seq<Slot>

    /** Eight slots, each holding nothing, the sentinel, or a summary of its own category. */
    ghost predicate Valid()
      reads this
    {
      |info| == 8
      && forall c: Category :: info[Index(c)].Found? ==> info[Index(c)].summary.Kind() == c
    }

    /** The table as the program starts: every slot is `None`. */
    constructor ()
      ensures Valid()
      ensures forall c: Category :: info[Index(c)] == NotRequested
    {
      info := [NotRequested, NotRequested, NotRequested, NotRequested,
               NotRequested, NotRequested, NotRequested, NotRequested];
    }

    /** push_event: writes slot 0 and no other. */
    method PushEvent(data: seq<Event>)
      requires Valid()
      modifies this
      ensures Valid()
      ensures info == old(info)[Index(Push) := SlotFor(Push, data)]
    {
      var repoData, eventExists := CollectPush(data);
      if eventExists {
        info := info[0 := Found(PushSummary(repoData))];
      } else {
        info := info[0 := NotFound];
      }
    }

    /** pull_request_event: writes slot 1 and no other. */
    method PullRequestEvent(data: seq<Event>)
      requires Valid()
      modifies this
      ensures Valid()
      ensures info == old(info)[Index(PullRequest) := SlotFor(PullRequest, data)]
    {
      var repoData, eventExists := CollectActions(data, PullRequest);
      if eventExists {
        info := info[1 := Found(PullRequestSummary(repoData))];
      } else {
        info := info[1 := NotFound];
      }
    }

    /** issues_event: writes slot 2 and no other. */
    method IssuesEvent(data: seq<Event>)
      requires Valid()
      modifies this
      ensures Valid()
      ensures info == old(info)[Index(Issues) := SlotFor(Issues, data)]
    {
      var repoData, eventExists := CollectActions(data, Issues);
      if eventExists {
        info := info[2 := Found(IssuesSummary(repoData))];
      } else {
        info := info[2 := NotFound];
      }
    }

    /** fork_event: writes slot 3 and no other. */
    method ForkEvent(data: seq<Event>)
      requires Valid()
      modifies this
      ensures Valid()
      ensures info == old(info)[Index(Fork) := SlotFor(Fork, data)]
    {
      var repoData, eventExists := CollectFork(data);
      if eventExists {
        info := info[3 := Found(ForkSummary(repoData))];
      } else {
        info := info[3 := NotFound];
      }
    }

    /** watch_event: writes slot 4 and no other. */
    method WatchEvent(data: seq<Event>)
      requires Valid()
      modifies this
      ensures Valid()
      ensures info == old(info)[Index(Watch) := SlotFor(Watch, data)]
    {
      var repoData, eventExists := CollectWatch(data);
      if eventExists {
        info := info[4 := Found(WatchSummary(repoData))];
      } else {
        info := info[4 := NotFound];
      }
    }

    /** create_event: writes slot 5 and no other. */
    method CreateEvent(data: seq<Event>)
      requires Valid()
      modifies this
      ensures Valid()
      ensures info == old(info)[Index(Create) := SlotFor(Create, data)]
    {
      var repoData, eventExists := CollectCreate(data);
      if eventExists {
        info := info[5 := Found(CreateSummary(repoData))];
      } else {
        info := info[5 := NotFound];
      }
    }

    /** release_event: writes slot 6 and no other. */
    method ReleaseEvent(data: seq<Event>)
      requires Valid()
      modifies this
      ensures Valid()
      ensures info == old(info)[Index(Release) := SlotFor(Release, data)]
    {
      var repoData, eventExists := CollectRelease(data);
      if eventExists {
        info := info[6 := Found(ReleaseSummary(repoData))];
      } else {
        info := info[6 := NotFound];
      }
    }

    /** delete_event: writes slot 7 and no other. */
    method DeleteEvent(data: seq<Event>)
      requires Valid()
      modifies this
      ensures Valid()
      ensures info == old(info)[Index(Delete) := SlotFor(Delete, data)]
    {
      var repoData, eventExists := CollectDelete(data);
      if eventExists {
        info := info[7 := Found(DeleteSummary(repoData))];
      } else {
        info := info[7 := NotFound];
      }
    }

    /** Runs the reducer of category `c`. */
    method Reduce(c: Category, data: seq<Event>)
      requires Valid()
      modifies this
      ensures Valid()
      ensures info == old(info)[Index(c) := SlotFor(c, data)]
    {
      match c
      case Push => PushEvent(data);
      case PullRequest => PullRequestEvent(data);
      case Issues => IssuesEvent(data);
      case Fork => ForkEvent(data);
      case Watch => WatchEvent(data);
      case Create => CreateEvent(data);
      case Release => ReleaseEvent(data);
      case Delete => DeleteEvent(data);
    }

    /** Running a reducer twice leaves the table as running it once: the second run
        writes the same slot with the same value. */
    method ReduceTwice(c: Category, data: seq<Event>)
      requires Valid()
      modifies this
      ensures Valid()
      ensures info == old(info)[Index(c) := SlotFor(c, data)]
    {
      Reduce(c, data);
      Reduce(c, data);
    }
  }

  /** The category whose slot is at position `i`. */
  function CategoryAt(i: nat): (c: Category)
    requires i < 8
    ensures Index(c) == i
  {
    [Push, PullRequest, Issues, Fork, Watch, Create, Release, Delete][i]
  }

  /** The table in which exactly the categories of `sel` have been reduced over `data`. */
  ghost function TableAfter(sel: set<Category>, data: seq<Event>): (t: seq<Slot>)
    ensures |t| == 8
    ensures forall c: Category :: t[Index(c)] == if c in sel then SlotFor(c, data) else NotRequested
  {
    seq(8, i requires 0 <= i < 8 =>
      if CategoryAt(i) in sel then SlotFor(CategoryAt(i), data) else NotRequested)
  }

  /** Running the reducer of `c` on a table in which `sel` has been reduced gives the
      table in which `sel` and `c` have been reduced. */
  lemma TableAfterAdd(sel: set<Category>, c: Category, data: seq<Event>)
    ensures TableAfter(sel, data)[Index(c) := SlotFor(c, data)] == TableAfter(sel + {c}, data)
  {
    var t, t' := TableAfter(sel, data)[Index(c) := SlotFor(c, data)], TableAfter(sel + {c}, data);
    forall i | 0 <= i < 8
      ensures t[i] == t'[i]
    {
      var d := CategoryAt(i);
      assert t[Index(d)] == t'[Index(d)];
    }
  }

  /** Runs the reducers of `cats`, one after the other, in that order. */
  method RunEach(table: EventInfoTable, cats: seq<Category>, data: seq<Event>)
    requires table.Valid() && table.info == TableAfter({}, data)
    modifies table
    ensures table.Valid() && table.info == TableAfter((set c | c in cats), data)
  {
    ghost var sel: set<Category> := {};
    for i := 0 to |cats|
      invariant table.Valid() && table.info == TableAfter(sel, data)
      invariant sel == set c | c in cats[..i]
    {
      table.Reduce(cats[i], data);
      TableAfterAdd(sel, cats[i], data);
      assert cats[..i + 1] == cats[..i] + [cats[i]];
      sel := sel + {cats[i]};
    }
    assert cats[..|cats|] == cats;
  }

  /** The last branch of `main`: for each category in slot order, its reducer runs
      when its flag is given. */
  method RunFlagged(table: EventInfoTable, f: Flags, data: seq<Event>)
    requires table.Valid() && table.info == TableAfter({}, data)
    modifies table
    ensures table.Valid() && table.info == TableAfter(FlaggedCategories(f), data)
  {
    ghost var sel: set<Category> := {};
    for i := 0 to 8
      invariant table.Valid() && table.info == TableAfter(sel, data)
      invariant forall c: Category :: c in sel <==> Index(c) < i && Flag(f, c)
    {
      var c := CategoryAt(i);
      if Flag(f, c) {
        table.Reduce(c, data);
        TableAfterAdd(sel, c, data);
        sel := sel + {c};
      }
    }
    assert sel == FlaggedCategories(f);
  }

  /** What `main` ends with: the process exits with status 1 on conflicting flags, or
      the table is handed to display_events. */
  datatype RunResult = Exit(conflict: Conflict) | Display(info: seq<Slot>)

  /** `main`, with the fetched records `data` as a parameter: check the flags, then
      run the reducers of the selected categories. Exactly the selected slots are
      written, each with its reference value; every other slot stays `None`. */
  method Run(f: Flags, data: seq<Event>) returns (r: RunResult)
    ensures r.Exit? <==> CheckConflicts(f) != Accepted
    ensures r.Exit? ==> CheckConflicts(f) == Rejected(r.conflict)
    ensures r.Display? ==> |r.info| == 8
    ensures r.Display? ==> forall c: Category ::
      r.info[Index(c)] == if c in Selected(f) then SlotFor(c, data) else NotRequested
  {
    var check := CheckConflicts(f);
    if check.Rejected? {
      return Exit(check.conflict);
    }
    var table := new EventInfoTable();
    ghost var sel: set<Category> := {};
    assert table.info == TableAfter({}, data);
    var defaultEvents := f.defaultEvents;
    if !(f.defaultEvents || f.allEvents || AnyCategoryFlag(f)) {
      defaultEvents := true;
    }
    if defaultEvents {
      RunEach(table, [Push, PullRequest, Issues, Fork, Watch], data);
      sel := DefaultCategories;
    } else if f.allEvents {
      RunEach(table, [Push, PullRequest, Issues, Fork, Watch, Create, Release, Delete], data);
      sel := AllCategories;
    } else {
      RunFlagged(table, f, data);
      sel := FlaggedCategories(f);
    }
    assert sel == Selected(f);
    r := Display(table.info);
  }
}
