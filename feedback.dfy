/** The feedback service's local rules: the check of submitted feedback, who may update or
    delete a feedback, how a vote changes a feedback, the local keyword search, and the local
    statistics. The signed-in user is a parameter. */
module Feedback {
  import opened Common
  import Tally

  const FeedbackTypes: seq<string> := ["bug", "feature", "improvement", "question", "other"]
  const Priorities: seq<string> := ["low", "medium", "high", "critical"]
  const MaxTitleLength := 200
  const MaxContentLength := 5000

  // ---------------------------------------------------------------------------
  // Submitted data
  // ---------------------------------------------------------------------------

  /** The submitted fields; an absent field is None. */
  datatype FeedbackData = FeedbackData(title: Option<string>, content: Option<string>,
                                       feedbackType: Option<string>, priority: Option<string>)

  const MissingData := "反馈数据不能为空"
  const BlankTitle := "反馈标题不能为空"
  const TitleTooLong := "反馈标题不能超过200个字符"
  const BlankContent := "反馈内容不能为空"
  const ContentTooLong := "反馈内容不能超过5000个字符"
  const BadType := "无效的反馈类型，必须是: bug, feature, improvement, question, other"
  const BadPriority := "无效的优先级，必须是: low, medium, high, critical"

  /** A present, non-blank text. */
  predicate Filled(o: Option<string>) { o.Some? && o.value != "" && !JsBlank(o.value) }

  /** A present, non-empty text (JavaScript truthiness). */
  predicate Given(o: Option<string>) { o.Some? && o.value != "" }

  /** The checks in the order the service makes them: None when all pass, otherwise the first
      failure. */
  function ValidateFeedbackData(data: Option<FeedbackData>): (err: Option<string>)
    ensures err.None? <==>
      data.Some?
      && Filled(data.value.title) && |data.value.title.value| <= MaxTitleLength
      && Filled(data.value.content) && |data.value.content.value| <= MaxContentLength
      && (!Given(data.value.feedbackType) || data.value.feedbackType.value in FeedbackTypes)
      && (!Given(data.value.priority) || data.value.priority.value in Priorities)
    ensures data.None? ==> err == Some(MissingData)
    ensures data.Some? && !Filled(data.value.title) ==> err == Some(BlankTitle)
    ensures err == Some(TitleTooLong) ==>
      data.Some? && data.value.title.Some? && |data.value.title.value| > MaxTitleLength
    ensures err == Some(ContentTooLong) ==>
      data.Some? && data.value.content.Some? && |data.value.content.value| > MaxContentLength
  {
    if data.None? then Some(MissingData)
    else
      var d := data.value;
      if !Filled(d.title) then Some(BlankTitle)
      else if |d.title.value| > MaxTitleLength then Some(TitleTooLong)
      else if !Filled(d.content) then Some(BlankContent)
      else if |d.content.value| > MaxContentLength then Some(ContentTooLong)
      else if Given(d.feedbackType) && d.feedbackType.value !in FeedbackTypes then Some(BadType)
      else if Given(d.priority) && d.priority.value !in Priorities then Some(BadPriority)
      else None
  }

  // ---------------------------------------------------------------------------
  // Permissions
  // ---------------------------------------------------------------------------

  /** The signed-in user. */
  datatype User = User(id: int, isAdmin: bool)

  const OwnerFields: seq<string> := ["title", "content", "attachments"]

  /** Whether the feedback was written by the user; without a user, or for feedback without an
      author, it never was. */
  predicate IsOwner(user: Option<User>, author: Option<int>)
  {
    user.Some? && author == Some(user.value.id)
  }

  /** An administrator may change anything; the author only the title, content and
      attachments; nobody else anything. */
  function CheckUpdatePermission(user: Option<User>, author: Option<int>, fields: seq<string>)
    : (ok: bool)
    ensures ok <==>
      (user.Some? && user.value.isAdmin)
      || (IsOwner(user, author) && forall k :: 0 <= k < |fields| ==> fields[k] in OwnerFields)
  {
    if user.Some? && user.value.isAdmin then true
    else if IsOwner(user, author) then forall k :: 0 <= k < |fields| ==> fields[k] in OwnerFields
    else false
  }

  /** An administrator or the author may delete. */
  function CheckDeletePermission(user: Option<User>, author: Option<int>): (ok: bool)
    ensures ok <==> (user.Some? && user.value.isAdmin) || IsOwner(user, author)
  {
    (user.Some? && user.value.isAdmin) || IsOwner(user, author)
  }

  /** Whoever may make some change may delete; the author may always make an empty change. */
  lemma UpdateImpliesDelete(user: Option<User>, author: Option<int>, fields: seq<string>)
    ensures CheckUpdatePermission(user, author, fields) ==> CheckDeletePermission(user, author)
    ensures CheckDeletePermission(user, author) <==> CheckUpdatePermission(user, author, [])
  {
  }

  // ---------------------------------------------------------------------------
  // Votes
  // ---------------------------------------------------------------------------

  /** The vote fields of a formatted feedback. */
  datatype Votes = Votes(upvotes: int, downvotes: int, upvotedBy: seq<int>, downvotedBy: seq<int>)

  /** `filter(id => id !== user)`. */
  function RemoveAll(s: seq<int>, x: int): (r: seq<int>)
    ensures |r| <= |s|
    ensures forall y :: y in r <==> y in s && y != x
    ensures x !in s ==> r == s
    ensures x in s ==> |r| < |s|
  {
    if s == [] then []
    else
      var init := RemoveAll(s[..|s| - 1], x);
      var last := s[|s| - 1];
      assert forall y :: y in s ==> y in s[..|s| - 1] || y == last;
      assert last in s;
      if last == x then init else init + [last]
  }

  predicate NoDuplicateIds(s: seq<int>)
  {
    forall i, j :: 0 <= i < j < |s| ==> s[i] != s[j]
  }

  /** Withdrawing a vote from a list without duplicates keeps it so, one entry shorter. */
  lemma {:induction false} RemoveAllKeepsDistinct(s: seq<int>, x: int)
    requires NoDuplicateIds(s)
    ensures NoDuplicateIds(RemoveAll(s, x))
    ensures x in s ==> |RemoveAll(s, x)| == |s| - 1
  {
    if s != [] {
      var init := s[..|s| - 1];
      var last := s[|s| - 1];
      RemoveAllKeepsDistinct(init, x);
      assert last !in init;
      if last != x {
        assert last !in RemoveAll(init, x);
      } else {
        assert x !in init;
      }
    }
  }

  /** The counters match the voter lists, no one is listed twice, no one voted both ways. */
  predicate Consistent(v: Votes)
  {
    v.upvotes == |v.upvotedBy| && v.downvotes == |v.downvotedBy|
    && NoDuplicateIds(v.upvotedBy) && NoDuplicateIds(v.downvotedBy)
    && forall u :: u in v.upvotedBy ==> u !in v.downvotedBy
  }

  /** A vote in one direction: the user's vote the other way is withdrawn (its counter floored
      at zero), then the user is added to this direction unless already there. Without a user,
      or for another kind of vote, nothing changes. */
  function ApplyVote(v: Votes, user: Option<User>, voteType: string): (r: Votes)
    ensures user.None? || voteType !in {"upvote", "downvote"} ==> r == v
    ensures user.Some? && voteType == "upvote" ==>
      user.value.id in r.upvotedBy && user.value.id !in r.downvotedBy
    ensures user.Some? && voteType == "downvote" ==>
      user.value.id in r.downvotedBy && user.value.id !in r.upvotedBy
    ensures v.upvotes >= 0 && v.downvotes >= 0 ==> r.upvotes >= 0 && r.downvotes >= 0
  {
    if user.None? then v
    else
      var id := user.value.id;
      if voteType == "upvote" then
        var v1 := if id in v.downvotedBy
          then v.(downvotedBy := RemoveAll(v.downvotedBy, id), downvotes := Max(0, v.downvotes - 1))
          else v;
        if id !in v1.upvotedBy then v1.(upvotedBy := v1.upvotedBy + [id], upvotes := v1.upvotes + 1)
        else v1
      else if voteType == "downvote" then
        var v1 := if id in v.upvotedBy
          then v.(upvotedBy := RemoveAll(v.upvotedBy, id), upvotes := Max(0, v.upvotes - 1))
          else v;
        if id !in v1.downvotedBy then v1.(downvotedBy := v1.downvotedBy + [id], downvotes := v1.downvotes + 1)
        else v1
      else v
  }

  /** A vote keeps the counters equal to the voter lists, every voter listed once and no voter
      on both sides; with them, the voter is listed exactly once on the chosen side. */
  lemma VoteKeepsConsistent(v: Votes, user: Option<User>, voteType: string)
    requires Consistent(v)
    ensures Consistent(ApplyVote(v, user, voteType))
    ensures user.Some? && voteType == "upvote" ==>
      multiset(ApplyVote(v, user, voteType).upvotedBy)[user.value.id] == 1
    ensures user.Some? && voteType == "downvote" ==>
      multiset(ApplyVote(v, user, voteType).downvotedBy)[user.value.id] == 1
  {
    if user.Some? {
      var id := user.value.id;
      var r := ApplyVote(v, user, voteType);
      RemoveAllKeepsDistinct(v.upvotedBy, id);
      RemoveAllKeepsDistinct(v.downvotedBy, id);
      if voteType == "upvote" {
        AppendFresh(RemoveAll(v.upvotedBy, id), id);
        OnceIfNoDuplicates(r.upvotedBy, id);
      } else if voteType == "downvote" {
        AppendFresh(RemoveAll(v.downvotedBy, id), id);
        OnceIfNoDuplicates(r.downvotedBy, id);
      }
    }
  }

  /** Appending an absent id keeps a list free of duplicates. */
  lemma AppendFresh(s: seq<int>, id: int)
    requires NoDuplicateIds(s)
    ensures id !in s ==> NoDuplicateIds(s + [id])
  {
  }

  /** In a list without duplicates a listed id occurs once. */
  lemma {:induction false} OnceIfNoDuplicates(s: seq<int>, id: int)
    requires NoDuplicateIds(s) && id in s
    ensures multiset(s)[id] == 1
  {
    var init := s[..|s| - 1];
    var last := s[|s| - 1];
    assert s == init + [last];
    assert multiset(s) == multiset(init) + multiset{last};
    if last == id {
      assert id !in init;
    } else {
      OnceIfNoDuplicates(init, id);
    }
  }

  /** Voting the same way twice is voting once. */
  lemma VoteIdempotent(v: Votes, user: Option<User>, voteType: string)
    ensures ApplyVote(ApplyVote(v, user, voteType), user, voteType) == ApplyVote(v, user, voteType)
  {
  }

  // ---------------------------------------------------------------------------
  // Local search and statistics
  // ---------------------------------------------------------------------------

  /** The fields of a stored feedback that the local search and statistics read. */
  datatype Item = Item(title: string, content: string, userName: string, feedbackType: string,
                       status: string, priority: string)

  /** Whether the lower-cased title, content or author name contains the term. */
  predicate Matches(f: Item, term: string)
  {
    Contains(AsciiLower(f.title), term) || Contains(AsciiLower(f.content), term)
    || Contains(AsciiLower(f.userName), term)
  }

  /** The feedback that matches, in list order. */
  function Filtered(all: seq<Item>, term: string): (r: seq<Item>)
    ensures |r| <= |all|
    ensures forall f :: f in r <==> f in all && Matches(f, term)
    ensures (forall k :: 0 <= k < |all| ==> Matches(all[k], term)) ==> r == all
  {
    if all == [] then []
    else
      var init := Filtered(all[..|all| - 1], term);
      var last := all[|all| - 1];
      assert forall y :: y in all ==> y in all[..|all| - 1] || y == last;
      assert last in all;
      if Matches(last, term) then init + [last] else init
  }

  /** The keyword lower-cased, then trimmed. */
  function SearchTerm(keyword: string): string
  {
    JsTrim(AsciiLower(keyword))
  }

  datatype SearchResult = SearchResult(total: int, page: int, pageSize: int, items: seq<Item>)

  /** The local search: the keyword lower-cased and trimmed, the matching feedback counted
      and one page of it returned; the page defaults to 1 and its size to 20. */
  function LocalSearchFeedback(all: seq<Item>, keyword: string, page: Option<int>,
                               pageSize: Option<int>)
    : (r: SearchResult)
    ensures r.total == |Filtered(all, SearchTerm(keyword))| <= |all|
    ensures r.pageSize >= 0 ==> |r.items| <= r.pageSize
    ensures r.items == Page(Filtered(all, SearchTerm(keyword)), r.page, r.pageSize)
    ensures forall f :: f in r.items ==> f in all && Matches(f, SearchTerm(keyword))
  {
    var pg := if page.Some? then page.value else 1;
    var size := if pageSize.Some? then pageSize.value else 20;
    var matching := Filtered(all, SearchTerm(keyword));
    PageMembers(matching, pg, size);
    SearchResult(|matching|, pg, size, Page(matching, pg, size))
  }

  /** A page holds only elements of the list it is cut from. */
  lemma PageMembers<T>(s: seq<T>, page: int, pageSize: int)
    ensures forall x :: x in Page(s, page, pageSize) ==> x in s
  {
    var start := (page - 1) * pageSize;
    var r := JsSlice(s, start, start + pageSize);
    forall x | x in r
      ensures x in s
    {
      var k :| 0 <= k < |r| && r[k] == x;
    }
  }

  /** Every text contains the empty text, so a keyword of spaces matches all feedback. */
  lemma BlankKeywordMatchesAll(all: seq<Item>)
    ensures Filtered(all, "") == all
  {
    forall k | 0 <= k < |all|
      ensures Matches(all[k], "")
    {
      assert StartsWith(AsciiLower(all[k].title), "");
    }
  }

  /** The local statistics. */
  datatype Statistics = Statistics(total: int, byType: map<string, int>,
                                   byStatus: map<string, int>, byPriority: map<string, int>)

  function TypesOf(all: seq<Item>): (s: seq<string>)
    ensures |s| == |all| && forall k :: 0 <= k < |all| ==> s[k] == all[k].feedbackType
  {
    seq(|all|, k requires 0 <= k < |all| => all[k].feedbackType)
  }

  function StatusesOf(all: seq<Item>): (s: seq<string>)
    ensures |s| == |all| && forall k :: 0 <= k < |all| ==> s[k] == all[k].status
  {
    seq(|all|, k requires 0 <= k < |all| => all[k].status)
  }

  function PrioritiesOf(all: seq<Item>): (s: seq<string>)
    ensures |s| == |all| && forall k :: 0 <= k < |all| ==> s[k] == all[k].priority
  {
    seq(|all|, k requires 0 <= k < |all| => all[k].priority)
  }

  /** One pass over the list, adding one to the feedback's type, status and priority. */
  method CalculateLocalStatistics(all: seq<Item>) returns (stats: Statistics)
    ensures stats == Statistics(|all|, Tally.Count(TypesOf(all)), Tally.Count(StatusesOf(all)),
                                Tally.Count(PrioritiesOf(all)))
  {
    var byType: map<string, int> := map[];
    var byStatus: map<string, int> := map[];
    var byPriority: map<string, int> := map[];
    var i := 0;
    while i < |all|
      invariant 0 <= i <= |all|
      invariant byType == Tally.Count(TypesOf(all[..i]))
      invariant byStatus == Tally.Count(StatusesOf(all[..i]))
      invariant byPriority == Tally.Count(PrioritiesOf(all[..i]))
    {
      var f := all[i];
      StatisticsStep(all, i);
      byType := Tally.AddTo(byType, f.feedbackType, 1);
      byStatus := Tally.AddTo(byStatus, f.status, 1);
      byPriority := Tally.AddTo(byPriority, f.priority, 1);
      i := i + 1;
    }
    assert all[..|all|] == all;
    stats := Statistics(|all|, byType, byStatus, byPriority);
  }

  /** Taking one more feedback item into the three tallies. */
  lemma StatisticsStep(all: seq<Item>, i: int)
    requires 0 <= i < |all|
    ensures Tally.Count(TypesOf(all[..i + 1]))
            == Tally.AddTo(Tally.Count(TypesOf(all[..i])), all[i].feedbackType, 1)
    ensures Tally.Count(StatusesOf(all[..i + 1]))
            == Tally.AddTo(Tally.Count(StatusesOf(all[..i])), all[i].status, 1)
    ensures Tally.Count(PrioritiesOf(all[..i + 1]))
            == Tally.AddTo(Tally.Count(PrioritiesOf(all[..i])), all[i].priority, 1)
  {
    assert TypesOf(all[..i + 1])[..i] == TypesOf(all[..i]);
    assert StatusesOf(all[..i + 1])[..i] == StatusesOf(all[..i]);
    assert PrioritiesOf(all[..i + 1])[..i] == PrioritiesOf(all[..i]);
  }

  /** Each of the three tallies adds up to the number of feedback items. */
  lemma StatisticsAddUp(all: seq<Item>)
    ensures Tally.SumValues(Tally.Count(TypesOf(all))) == |all|
    ensures Tally.SumValues(Tally.Count(StatusesOf(all))) == |all|
    ensures Tally.SumValues(Tally.Count(PrioritiesOf(all))) == |all|
  {
    Tally.CountSum(TypesOf(all));
    Tally.CountSum(StatusesOf(all));
    Tally.CountSum(PrioritiesOf(all));
  }
}
