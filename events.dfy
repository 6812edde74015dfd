/** Activity records as the events endpoint delivers them, after JSON decoding. */
module Events {

  /** The eight event categories the tool knows, listed in slot order. */
  datatype Category = Push | PullRequest | Issues | Fork | Watch | Create | Release | Delete

  /** The category-specific part of a record. The variant stands for the record's
      `type` string ("PushEvent", "PullRequestEvent", ...); OtherPayload covers every
      other type the endpoint may deliver, which no reducer looks at. */
  datatype Payload =
    | PushPayload(commits: seq<string>)          // the message of each entry of `commits`
    | PullRequestPayload(prAction: string, prTitle: string)
    | IssuesPayload(issueAction: string, issueTitle: string)
    | ForkPayload(forkeeFullName: string)
    | WatchPayload(watchAction: string)
    | CreatePayload
    | ReleasePayload(name: string, tagName: string, publishedAt: string)
    | DeletePayload(ref: string, refType: string)
    | OtherPayload(typeName: string)

  /** One activity record: `repo.name`, `created_at` and `payload`. */
  datatype Event = Event(repoName: string, createdAt: string, payload: Payload)

  /** The record's `type` is the one category `c` stands for. */
  predicate Is(e: Event, c: Category) {
    match c
    case Push => e.payload.PushPayload?
    case PullRequest => e.payload.PullRequestPayload?
    case Issues => e.payload.IssuesPayload?
    case Fork => e.payload.ForkPayload?
    case Watch => e.payload.WatchPayload?
    case Create => e.payload.CreatePayload?
    case Release => e.payload.ReleasePayload?
    case Delete => e.payload.DeletePayload?
  }

  /** The record adds something to the summary of `c` and sets its found flag:
      it has the category's type and, for a push, at least one commit. */
  predicate Contributes(e: Event, c: Category) {
    Is(e, c) && (e.payload.PushPayload? ==> e.payload.commits != [])
  }

  /** The `type` string of the category's records, which also labels its slot. */
  function TypeName(c: Category): (name: string)
    ensures |name| > 5 && name[|name| - 5..] == "Event"
  {
    match c
    case Push => "PushEvent"
    case PullRequest => "PullRequestEvent"
    case Issues => "IssuesEvent"
    case Fork => "ForkEvent"
    case Watch => "WatchEvent"
    case Create => "CreateEvent"
    case Release => "ReleaseEvent"
    case Delete => "DeleteEvent"
  }

  /** Distinct categories have distinct `type` strings. */
  lemma TypeNameInjective(c: Category, d: Category)
    ensures TypeName(c) == TypeName(d) <==> c == d
  {
  }

  /** The record's `type` string, as the reducers compare it. For a well-typed record,
      the string test `event['type'] == "XEvent"` holds exactly when the record is of
      category X. */
  function TypeOf(e: Event): (name: string)
    ensures WellTyped(e) ==> forall c: Category :: name == TypeName(c) <==> Is(e, c)
  {
    match e.payload
    case PushPayload(_) => TypeName(Push)
    case PullRequestPayload(_, _) => TypeName(PullRequest)
    case IssuesPayload(_, _) => TypeName(Issues)
    case ForkPayload(_) => TypeName(Fork)
    case WatchPayload(_) => TypeName(Watch)
    case CreatePayload => TypeName(Create)
    case ReleasePayload(_, _, _) => TypeName(Release)
    case DeletePayload(_, _) => TypeName(Delete)
    case OtherPayload(t) => t
  }

  /** An OtherPayload record carries none of the eight known `type` strings: the
      payload variant is then the record's type. */
  predicate WellTyped(e: Event) {
    e.payload.OtherPayload? ==> forall c: Category :: e.payload.typeName != TypeName(c)
  }

  /** Position of the category's slot in the result table. */
  function Index(c: Category): (i: nat)
    ensures i < 8
  {
    match c
    case Push => 0
    case PullRequest => 1
    case Issues => 2
    case Fork => 3
    case Watch => 4
    case Create => 5
    case Release => 6
    case Delete => 7
  }

  /** Python's `timestamp[0:10]`: the calendar day of an ISO-8601 timestamp, or the
      whole string when it is shorter than ten characters. */
  function Day(timestamp: string): (day: string)
    ensures |day| == if |timestamp| < 10 then |timestamp| else 10
    ensures day <= timestamp
  {
    timestamp[..if |timestamp| < 10 then |timestamp| else 10]
  }

  /** The records of `data` with category `c`, in input order. */
  function OfCategory(data: seq<Event>, c: Category): (r: seq<Event>)
    ensures |r| <= |data|
    ensures forall j :: 0 <= j < |r| ==> Is(r[j], c) && r[j] in data
  {
    if data == [] then []
    else
      var last := data[|data| - 1];
      OfCategory(data[..|data| - 1], c) + (if Is(last, c) then [last] else [])
  }

  /** Positions in `data` of the records with category `c`, in increasing order. */
  function MatchIndices(data: seq<Event>, c: Category): (idx: seq<nat>)
  {
    if data == [] then []
    else
      MatchIndices(data[..|data| - 1], c) + (if Is(data[|data| - 1], c) then [|data| - 1] else [])
  }

  /** `idx` lists, in increasing order, exactly the positions in `data` of the
      records of category `c`. */
  predicate Positions(idx: seq<nat>, data: seq<Event>, c: Category) {
    && (forall j :: 0 <= j < |idx| ==> idx[j] < |data|)
    && (forall j, k :: 0 <= j < k < |idx| ==> idx[j] < idx[k])
    && (forall i :: 0 <= i < |data| ==> (Is(data[i], c) <==> i in idx))
  }

  /** MatchIndices lists exactly the positions of the records of category `c`,
      each once, in increasing order. */
  lemma {:induction false} MatchIndicesPositions(data: seq<Event>, c: Category)
    ensures Positions(MatchIndices(data, c), data, c)
  {
    if data != [] {
      var n := |data| - 1;
      var pre := data[..n];
      MatchIndicesPositions(pre, c);
      var idx0 := MatchIndices(pre, c);
      assert MatchIndices(data, c) == idx0 + (if Is(data[n], c) then [n] else []);
      assert forall i :: 0 <= i < n ==> data[i] == pre[i];
    }
  }

  /** OfCategory keeps exactly the records of category `c`, each once, in input order:
      its j-th element is the record at the j-th matching position. */
  lemma {:induction false} OfCategoryIndexed(data: seq<Event>, c: Category)
    ensures var idx := MatchIndices(data, c);
      && Positions(idx, data, c)
      && |OfCategory(data, c)| == |idx|
      && (forall j :: 0 <= j < |idx| ==> OfCategory(data, c)[j] == data[idx[j]])
  {
    MatchIndicesPositions(data, c);
    if data != [] {
      var n := |data| - 1;
      var pre := data[..n];
      OfCategoryIndexed(pre, c);
      var idx0 := MatchIndices(pre, c);
      assert MatchIndices(data, c) == idx0 + (if Is(data[n], c) then [n] else []);
      assert forall j :: 0 <= j < |idx0| ==> idx0[j] < n && data[idx0[j]] == pre[idx0[j]];
    }
  }

  /** Taking one more record of the input extends OfCategory by that record, if it matches. */
  lemma OfCategorySnoc(data: seq<Event>, i: nat, c: Category)
    requires i < |data|
    ensures OfCategory(data[..i + 1], c)
         == OfCategory(data[..i], c) + (if Is(data[i], c) then [data[i]] else [])
  {
    assert data[..i + 1][..i] == data[..i];
  }

  /** Some record of `data` contributes to category `c`: the reducer's found flag. */
  predicate Present(data: seq<Event>, c: Category) {
    exists i :: 0 <= i < |data| && Contributes(data[i], c)
  }

  /** Scanning one more record sets the found flag exactly when that record contributes. */
  lemma PresentSnoc(data: seq<Event>, i: nat, c: Category)
    requires i < |data|
    ensures Present(data[..i + 1], c) <==> Present(data[..i], c) || Contributes(data[i], c)
  {
    var pre, pre' := data[..i], data[..i + 1];
    assert pre'[i] == data[i];
    if Present(pre', c) && !Contributes(data[i], c) {
      var k :| 0 <= k < |pre'| && Contributes(pre'[k], c);
      assert pre[k] == pre'[k];
    }
    if Present(pre, c) {
      var k :| 0 <= k < |pre| && Contributes(pre[k], c);
      assert pre'[k] == pre[k];
    }
  }

  /** Some record of `data` that contributes to category `c` comes from repository `x`. */
  predicate HasContributor(data: seq<Event>, c: Category, x: string) {
    exists i :: 0 <= i < |data| && Contributes(data[i], c) && data[i].repoName == x
  }

  /** Scanning one more record adds its repository to the contributors if it contributes. */
  lemma HasContributorSnoc(data: seq<Event>, i: nat, c: Category, x: string)
    requires i < |data|
    ensures HasContributor(data[..i + 1], c, x)
        <==> HasContributor(data[..i], c, x) || (Contributes(data[i], c) && data[i].repoName == x)
  {
    var pre, pre' := data[..i], data[..i + 1];
    assert pre'[i] == data[i];
    if HasContributor(pre', c, x) && !(Contributes(data[i], c) && data[i].repoName == x) {
      var k :| 0 <= k < |pre'| && Contributes(pre'[k], c) && pre'[k].repoName == x;
      assert pre[k] == pre'[k];
    }
    if HasContributor(pre, c, x) {
      var k :| 0 <= k < |pre| && Contributes(pre[k], c) && pre[k].repoName == x;
      assert pre'[k] == pre[k];
    }
  }
}
