/**
 * The poll page (frontend/src/pages/PollView.jsx): the poll as the browser holds it,
 * the choice of what the page shows, the vote total and the percentage per option,
 * and the page state that selecting and voting update.
 */
module PollViewPage {
  import opened Wrappers
  import opened JsValues
  import PollService

  /** An option as received in JSON; its vote count may be missing. */
  datatype ShownOption = ShownOption(id: string, text: string, voteCount: Option<int>)

  datatype ShownPoll = ShownPoll(id: string, question: string, options: seq<ShownOption>)

  /** What the page renders. */
  datatype Screen =
    | LoadingScreen
    | ErrorScreen(message: string)
    | EmptyScreen                      // `return null`
    | BallotScreen(banner: string)     // the options to choose from, with the error banner ("" for none)
    | ResultsScreen(banner: string)    // the counts and percentages, with the error banner

  const LoadFailedText: string := "Failed to load poll"
  const VoteFailedText: string := "Failed to vote"

  /** The order of the early returns of the render: loading, then a load error, then no poll. */
  function ChooseScreen(loading: bool, error: string, poll: Option<ShownPoll>, hasVoted: bool): (s: Screen)
    ensures s == LoadingScreen <==> loading
    ensures s.ErrorScreen? <==> !loading && error != "" && poll.None?
    ensures s.ErrorScreen? ==> s.message == error
    ensures s == EmptyScreen <==> !loading && error == "" && poll.None?
    ensures !loading && poll.Some? ==> s == if hasVoted then ResultsScreen(error) else BallotScreen(error)
  {
    if loading then LoadingScreen
    else if error != "" && poll.None? then ErrorScreen(error)
    else if poll.None? then EmptyScreen
    else if !hasVoted then BallotScreen(error)
    else ResultsScreen(error)
  }

  /** A poll that is on the page, with or without an error banner. */
  predicate ShowsPoll(s: Screen) {
    s.BallotScreen? || s.ResultsScreen?
  }

  /** `o.voteCount || 0`. */
  function CountOf(o: ShownOption): int {
    if o.voteCount.Some? then o.voteCount.value else 0
  }

  /** `poll.options.reduce((sum, o) => sum + (o.voteCount || 0), 0)`, folding from the left. */
  function TotalVotes(opts: seq<ShownOption>): int {
    if opts == [] then 0 else TotalVotes(opts[..|opts| - 1]) + CountOf(opts[|opts| - 1])
  }

  lemma {:induction false} TotalVotesAppend(a: seq<ShownOption>, b: seq<ShownOption>)
    ensures TotalVotes(a + b) == TotalVotes(a) + TotalVotes(b)
  {
    if b == [] {
      assert a + b == a;
    } else {
      var b' := b[..|b| - 1];
      assert (a + b)[..|a + b| - 1] == a + b';
      TotalVotesAppend(a, b');
    }
  }

  /** With no negative counts, no option has more votes than the total. */
  lemma {:induction false} CountAtMostTotal(opts: seq<ShownOption>, k: nat)
    requires k < |opts|
    requires forall j :: 0 <= j < |opts| ==> CountOf(opts[j]) >= 0
    ensures 0 <= CountOf(opts[k]) <= TotalVotes(opts)
  {
    var init := opts[..|opts| - 1];
    TotalNonNegative(init);
    if k < |opts| - 1 {
      CountAtMostTotal(init, k);
    }
  }

  lemma {:induction false} TotalNonNegative(opts: seq<ShownOption>)
    requires forall j :: 0 <= j < |opts| ==> CountOf(opts[j]) >= 0
    ensures TotalVotes(opts) >= 0
  {
    if opts != [] {
      TotalNonNegative(opts[..|opts| - 1]);
    }
  }

  /** `Math.round(100 * v / t)` for `t > 0`, in exact arithmetic: the nearest integer, halves rounded up. */
  function RoundedPercent(v: int, t: int): (r: int)
    requires t > 0
    ensures 2 * t * r <= 200 * v + t < 2 * t * (r + 1)
  {
    (200 * v + t) / (2 * t)
  }

  /**
   * The percentage shown for an option: 0 when the total is not positive, otherwise
   * the rounded share; `None` stands for JavaScript's NaN, which a missing count gives.
   */
  function Percent(o: ShownOption, total: int): (r: Option<int>)
    ensures total <= 0 ==> r == Some(0)
    ensures total > 0 ==> (r.Some? <==> o.voteCount.Some?)
    ensures total > 0 && o.voteCount.Some? ==>
              2 * total * r.value <= 200 * o.voteCount.value + total < 2 * total * (r.value + 1)
  {
    if total > 0 then
      if o.voteCount.Some? then Some(RoundedPercent(o.voteCount.value, total)) else None
    else Some(0)
  }

  /** A share of the total rounds to a percentage between 0 and 100. */
  lemma PercentInRange(v: int, t: int)
    requires 0 <= v <= t && t > 0
    ensures 0 <= RoundedPercent(v, t) <= 100
  {
    var r := RoundedPercent(v, t);
    if r < 0 {
      assert 2 * t * (r + 1) <= 0 by { MulNonPositive(2 * t, r + 1); }
    }
    if r > 100 {
      assert 2 * t * r >= 2 * t * 101 by { MulMonotone(2 * t, 101, r); }
    }
  }

  lemma MulNonPositive(a: int, b: int)
    requires a > 0 && b <= 0
    ensures a * b <= 0
  {
  }

  lemma MulMonotone(a: int, b: int, c: int)
    requires a > 0 && b <= c
    ensures a * b <= a * c
  {
  }

  /**
   * On the results view of a poll whose counts are all present and non-negative,
   * every option shows a percentage between 0 and 100.
   */
  lemma ResultsPercentagesInRange(p: ShownPoll)
    requires forall j :: 0 <= j < |p.options| ==> p.options[j].voteCount.Some? && p.options[j].voteCount.value >= 0
    ensures forall j :: 0 <= j < |p.options| ==>
              Percent(p.options[j], TotalVotes(p.options)).Some? &&
              0 <= Percent(p.options[j], TotalVotes(p.options)).value <= 100
  {
    var total := TotalVotes(p.options);
    forall j | 0 <= j < |p.options|
      ensures Percent(p.options[j], total).Some? && 0 <= Percent(p.options[j], total).value <= 100
    {
      CountAtMostTotal(p.options, j);
      if total > 0 {
        PercentInRange(p.options[j].voteCount.value, total);
      }
    }
  }

  /** A poll as the browser receives it from the service. */
  function FromServer(v: PollService.PollView): (p: ShownPoll)
    ensures p.id == v.id && p.question == v.question && |p.options| == |v.options|
    ensures forall k :: 0 <= k < |v.options| ==>
              p.options[k] == ShownOption(v.options[k].id, v.options[k].text, Some(v.options[k].voteCount))
  {
    ShownPoll(v.id, v.question,
      seq(|v.options|, k requires 0 <= k < |v.options| =>
        ShownOption(v.options[k].id, v.options[k].text, Some(v.options[k].voteCount))))
  }

  /** The page's total is the service's vote total of the poll it received. */
  lemma {:induction false} TotalVotesOfServerPoll(v: PollService.PollView)
    ensures TotalVotes(FromServer(v).options) == PollService.SumVotes(v.options)
    decreases |v.options|
  {
    if v.options != [] {
      var rest := v.(options := v.options[1..]);
      TotalVotesOfServerPoll(rest);
      var shown := FromServer(v).options;
      assert shown == [shown[0]] + FromServer(rest).options;
      TotalVotesAppend([shown[0]], FromServer(rest).options);
      assert TotalVotes([shown[0]]) == CountOf(shown[0]) by {
        assert [shown[0]][..0] == [];
      }
    }
  }

  /** What the api layer reports for the initial fetch. */
  datatype LoadReply = Loaded(poll: ShownPoll) | FetchFailed(message: string)

  /** What the api layer reports for a vote. */
  datatype VoteReply = Accepted(updated: ShownPoll) | Refused(message: string)

  /** `!selectedOptionId` is false: an option is selected. */
  predicate Chosen(selected: Option<string>) {
    selected.Some? && selected.value != ""
  }

  /** The state of the poll page for one route id. */
  class PollViewState {
    const pollId: string
    var poll: Option<ShownPoll>
    var selectedOptionId: Option<string>
    var hasVoted: bool
    var loading: bool
    var voting: bool
    var error: string
    /** The votes this page has had accepted. */
    ghost var acceptedVotes: nat

    /** Between handlers nothing is being submitted, and at most one vote was accepted, the one `hasVoted` records. */
    ghost predicate Valid()
      reads this
    {
      && !voting
      && acceptedVotes == (if hasVoted then 1 else 0)
      && (hasVoted ==> poll.Some?)
    }

    constructor (id: string)
      ensures Valid()
      ensures pollId == id && poll == None && selectedOptionId == None
      ensures !hasVoted && loading && !voting && error == "" && acceptedVotes == 0
    {
      pollId := id;
      poll := None;
      selectedOptionId := None;
      hasVoted := false;
      loading := true;
      voting := false;
      error := "";
      acceptedVotes := 0;
    }

    function Shown(): Screen
      reads this
    {
      ChooseScreen(loading, error, poll, hasVoted)
    }

    /** The end of the initial fetch: the poll or the load error, and loading is over. */
    method FinishLoad(reply: LoadReply)
      requires Valid()
      modifies this
      ensures Valid()
      ensures !loading
      ensures reply.Loaded? ==> poll == Some(reply.poll) && error == old(error)
      ensures reply.FetchFailed? ==> poll == old(poll) && error == MessageOr(reply.message, LoadFailedText)
      ensures selectedOptionId == old(selectedOptionId) && hasVoted == old(hasVoted)
      ensures acceptedVotes == old(acceptedVotes)
    {
      match reply {
        case Loaded(p) => poll := Some(p);
        case FetchFailed(message) => error := MessageOr(message, LoadFailedText);
      }
      loading := false;
    }

    /** Clicking an option: it becomes the one selection. */
    method Select(optionId: string)
      requires Valid()
      modifies this
      ensures Valid()
      ensures selectedOptionId == Some(optionId)
      ensures poll == old(poll) && hasVoted == old(hasVoted) && loading == old(loading)
      ensures error == old(error) && acceptedVotes == old(acceptedVotes)
    {
      selectedOptionId := Some(optionId);
    }

    /**
     * `handleVote`. `reply` is what the api layer would report if the vote were
     * sent; `sent` is the option id actually sent.
     */
    method HandleVote(reply: VoteReply) returns (sent: Option<string>)
      requires Valid()
      modifies this
      ensures Valid()
      ensures old(hasVoted) ==> hasVoted
      ensures acceptedVotes <= 1
      ensures selectedOptionId == old(selectedOptionId) && loading == old(loading)
      ensures !Chosen(old(selectedOptionId)) || old(hasVoted) ==>
                && sent == None && poll == old(poll) && hasVoted == old(hasVoted)
                && error == old(error) && acceptedVotes == old(acceptedVotes)
      ensures Chosen(old(selectedOptionId)) && !old(hasVoted) ==>
                && sent == old(selectedOptionId)
                && (reply.Accepted? ==> poll == Some(reply.updated) && hasVoted && error == "")
                && (reply.Refused? ==>
                      poll == old(poll) && !hasVoted && error == MessageOr(reply.message, VoteFailedText))
      ensures ShowsPoll(old(Shown())) ==> ShowsPoll(Shown())
    {
      if !Chosen(selectedOptionId) || hasVoted {
        return None;
      }
      voting := true;
      error := "";
      sent := selectedOptionId;
      match reply {
        case Accepted(updated) =>
          poll := Some(updated);
          hasVoted := true;
          acceptedVotes := acceptedVotes + 1;
        case Refused(message) =>
          error := MessageOr(message, VoteFailedText);
      }
      voting := false;
    }
  }
}
