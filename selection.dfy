/** The command-line choice of categories: the conflict check on the flags and the
    choice, in `main`, of which reducers run. */
module Selection {
  import opened Events

  /** The ten boolean flags of the `username` command. */
  datatype Flags = Flags(
    defaultEvents: bool, allEvents: bool,
    push: bool, pullRequest: bool, issues: bool, fork: bool,
    watch: bool, create: bool, release: bool, delete: bool)

  /** The per-category flag of `c` (`--push`, `--pullrequest`, ..., `--delete`). */
  function Flag(f: Flags, c: Category): (given: bool) {
    match c
    case Push => f.push
    case PullRequest => f.pullRequest
    case Issues => f.issues
    case Fork => f.fork
    case Watch => f.watch
    case Create => f.create
    case Release => f.release
    case Delete => f.delete
  }

  /** `any(arg_list)`: at least one per-category flag is given. */
  predicate AnyCategoryFlag(f: Flags) {
    f.push || f.pullRequest || f.issues || f.fork || f.watch || f.create || f.release || f.delete
  }

  /** No flag at all was given. */
  predicate NoFlags(f: Flags) {
    !f.defaultEvents && !f.allEvents && !AnyCategoryFlag(f)
  }

  /** The three rejections of check_conflicts, in the order it tests them. */
  datatype Conflict = DefaultWithAll | DefaultNotAlone | AllNotAlone

  /** Outcome of check_conflicts: the program carries on, or prints a message and
      exits with status 1. */
  datatype CheckResult = Accepted | Rejected(conflict: Conflict)

  /** check_conflicts: `--default-events` and `--all-events` exclude each other and
      each excludes every per-category flag; any other combination is accepted. */
  function CheckConflicts(f: Flags): (r: CheckResult)
    ensures r == Accepted <==>
      !(f.defaultEvents && f.allEvents)
      && !(f.defaultEvents && AnyCategoryFlag(f))
      && !(f.allEvents && AnyCategoryFlag(f))
    ensures r == Rejected(DefaultWithAll) <==> f.defaultEvents && f.allEvents
    ensures r == Rejected(DefaultNotAlone) <==> f.defaultEvents && !f.allEvents && AnyCategoryFlag(f)
    ensures r == Rejected(AllNotAlone) <==> f.allEvents && !f.defaultEvents && AnyCategoryFlag(f)
  {
    if f.defaultEvents && f.allEvents then Rejected(DefaultWithAll)
    else if f.defaultEvents && AnyCategoryFlag(f) then Rejected(DefaultNotAlone)
    else if f.allEvents && AnyCategoryFlag(f) then Rejected(AllNotAlone)
    else Accepted
  }

  /** The categories of `--default-events`. */
  const DefaultCategories: set<Category> := {Push, PullRequest, Issues, Fork, Watch}

  /** The categories of `--all-events`. */
  const AllCategories: set<Category> := {Push, PullRequest, Issues, Fork, Watch, Create, Release, Delete}

  /** The categories whose per-category flag is given. */
  function FlaggedCategories(f: Flags): (s: set<Category>)
    ensures forall c :: c in s <==> Flag(f, c)
    ensures s == {} <==> !AnyCategoryFlag(f)
  {
    var s := set c | c in AllCategories && Flag(f, c);
    assert Push in s || PullRequest in s || Issues in s || Fork in s
        || Watch in s || Create in s || Release in s || Delete in s || !AnyCategoryFlag(f);
    s
  }

  /** The categories whose reducer `main` runs: no flag at all counts as
      `--default-events`, which runs the default five; `--all-events` runs all
      eight; otherwise exactly the flagged categories run. */
  function Selected(f: Flags): (s: set<Category>)
    ensures NoFlags(f) ==> s == DefaultCategories
    ensures f.defaultEvents ==> s == DefaultCategories
    ensures f.allEvents && !f.defaultEvents ==> s == AllCategories
    ensures !f.defaultEvents && !f.allEvents && AnyCategoryFlag(f) ==> forall c :: c in s <==> Flag(f, c)
    ensures s != {}
  {
    if f.defaultEvents || NoFlags(f) then DefaultCategories
    else if f.allEvents then AllCategories
    else FlaggedCategories(f)
  }
}
