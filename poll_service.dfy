/**
 * The request rules of the poll service (backend/src/index.ts): the records it stores,
 * the errors it answers with, the create-poll validation and option normalisation,
 * and the newest-first listing.
 */
module PollService {
  import opened Wrappers
  import opened Text
  import opened JsValues

  /** A row of the poll table. */
  datatype PollRecord = PollRecord(id: string, question: string, createdAt: int)

  /** A row of the option table; `pollId` refers to the poll that owns the option. */
  datatype OptionRecord = OptionRecord(id: string, pollId: string, text: string, voteCount: nat)

  /** A poll as the service returns it: the poll row with its options embedded. */
  datatype PollView = PollView(id: string, question: string, createdAt: int, options: seq<OptionRecord>)

  /** The error answers of the four poll endpoints that this model reaches. */
  datatype ApiError =
    | QuestionRequired
    | OptionsMustBeArray
    | TooFewOptions
    | PollNotFound
    | OptionIdRequired
    | InvalidOption
    | VoteFailed        // the generic store failure of the vote endpoint
  {
    function Status(): (code: int)
      ensures code == 400 || code == 404 || code == 500
      ensures code == 404 <==> this == PollNotFound
      ensures code == 500 <==> this == VoteFailed
    {
      match this
      case PollNotFound => 404
      case VoteFailed => 500
      case _ => 400
    }

    /** The `error` text of the JSON answer; no two errors share one, and none is empty. */
    function Message(): (text: string)
      ensures text != ""
    {
      match this
      case QuestionRequired => "Question is required"
      case OptionsMustBeArray => "Options must be an array"
      case TooFewOptions => "At least 2 options are required"
      case PollNotFound => "Poll not found"
      case OptionIdRequired => "optionId is required"
      case InvalidOption => "Invalid option for this poll"
      case VoteFailed => "Failed to record vote"
    }
  }

  lemma MessagesDistinct(e: ApiError, f: ApiError)
    ensures e.Message() == f.Message() <==> e == f
  {
  }

  /** The fields of a create-poll request body. */
  datatype CreateBody = CreateBody(question: JsValue, options: JsValue)

  /** What a valid create-poll request asks the store to create. */
  datatype NewPoll = NewPoll(question: string, texts: seq<string>)

  /** The fewest options a poll may have. */
  const MinOptions: nat := 2

  /** The most polls one listing returns. */
  const ListLimit: nat := 50

  // ---------------------------------------------------------------------------
  // Create-poll validation

  /** The question is a string that is not blank after trimming. */
  predicate QuestionOk(q: JsValue) {
    q.Str? && Trim(q.s) != ""
  }

  /** The per-entry step of the normalisation: strings are trimmed, anything else becomes "". */
  function TrimOrEmpty(v: JsValue): string {
    if v.Str? then Trim(v.s) else ""
  }

  /** `options.map(trim-or-empty)`. */
  function TrimEntries(elems: seq<JsValue>): (ts: seq<string>)
    ensures |ts| == |elems|
    ensures forall i :: 0 <= i < |elems| ==> ts[i] == TrimOrEmpty(elems[i])
    ensures forall t :: t in ts ==> IsTrimmed(t)
  {
    seq(|elems|, i requires 0 <= i < |elems| => TrimOrEmpty(elems[i]))
  }

  /** `options.map(trim-or-empty).filter(Boolean)`. */
  function NormaliseOptions(elems: seq<JsValue>): (r: seq<string>)
    ensures |r| <= |elems|
    ensures forall k :: 0 <= k < |r| ==> r[k] != "" && IsTrimmed(r[k])
  {
    var r := NonBlank(TrimEntries(elems));
    assert forall k :: 0 <= k < |r| ==> r[k] in r;
    r
  }

  /** The positions of `elems` whose entry survives normalisation, in increasing order. */
  function Survivors(elems: seq<JsValue>): seq<nat> {
    NonBlankFrom(TrimEntries(elems), 0)
  }

  /**
   * Normalisation keeps exactly the entries whose trimmed text is non-empty, trimmed,
   * in their input order: the k-th result is the trimmed k-th survivor, and a position
   * is a survivor exactly when its trimmed text is non-empty.
   */
  lemma NormaliseKeepsSurvivorsInOrder(elems: seq<JsValue>)
    ensures |NormaliseOptions(elems)| == |Survivors(elems)|
    ensures StrictlyIncreasing(Survivors(elems))
    ensures forall k :: 0 <= k < |Survivors(elems)| ==>
              Survivors(elems)[k] < |elems| && NormaliseOptions(elems)[k] == TrimOrEmpty(elems[Survivors(elems)[k]])
    ensures forall i :: 0 <= i < |elems| ==> (i in Survivors(elems) <==> TrimOrEmpty(elems[i]) != "")
  {
    var ts := TrimEntries(elems);
    var sv := Survivors(elems);
    assert sv == NonBlankFrom(ts, 0);
    assert NormaliseOptions(elems) == NonBlank(ts);
    NonBlankKeepsInOrder(ts);
  }

  /**
   * The create-poll rules in order; the first one that fails decides the error.
   * On success the question is trimmed and the option texts are normalised.
   */
  function ValidateCreate(body: CreateBody): (r: Result<NewPoll, ApiError>)
    ensures r == Failure(QuestionRequired) <==> !QuestionOk(body.question)
    ensures r == Failure(OptionsMustBeArray) <==> QuestionOk(body.question) && !body.options.Arr?
    ensures r == Failure(TooFewOptions) <==>
              QuestionOk(body.question) && body.options.Arr? && |NormaliseOptions(body.options.elems)| < MinOptions
    ensures r.Success? <==>
              QuestionOk(body.question) && body.options.Arr? && |NormaliseOptions(body.options.elems)| >= MinOptions
    ensures r.Success? ==>
              body.question.Str? && body.options.Arr? &&
              r.value == NewPoll(Trim(body.question.s), NormaliseOptions(body.options.elems))
  {
    if !QuestionOk(body.question) then Failure(QuestionRequired)
    else if !body.options.Arr? then Failure(OptionsMustBeArray)
    else
      var trimmed := NormaliseOptions(body.options.elems);
      if |trimmed| < MinOptions then Failure(TooFewOptions)
      else Success(NewPoll(Trim(body.question.s), trimmed))
  }

  /** Data that the store may hold for a new poll: a non-blank trimmed question and 2 or more non-blank trimmed options. */
  predicate WellFormed(np: NewPoll) {
    np.question != "" && IsTrimmed(np.question) && |np.texts| >= MinOptions
    && forall k :: 0 <= k < |np.texts| ==> np.texts[k] != "" && IsTrimmed(np.texts[k])
  }

  /** Everything validation accepts is well formed, and the only errors it gives are the three 400s. */
  lemma ValidatedIsWellFormed(body: CreateBody)
    ensures ValidateCreate(body).Success? ==> WellFormed(ValidateCreate(body).value)
    ensures ValidateCreate(body).Failure? ==> ValidateCreate(body).error.Status() == 400
  {
  }

  // ---------------------------------------------------------------------------
  // Reading the tables

  /** The options of `pollId`, in table order (`include: { options: true }`). */
  function OptionsOf(table: seq<OptionRecord>, pollId: string): (r: seq<OptionRecord>)
    ensures |r| <= |table|
    ensures forall o :: o in r <==> o in table && o.pollId == pollId
  {
    if table == [] then []
    else (if table[0].pollId == pollId then [table[0]] else []) + OptionsOf(table[1..], pollId)
  }

  /** Each option of the poll comes back as often as it is in the table (once, for a table of unique rows), and no other option at all. */
  lemma {:induction false} OptionsOfCounts(table: seq<OptionRecord>, pollId: string)
    ensures forall o :: multiset(OptionsOf(table, pollId))[o] == if o.pollId == pollId then multiset(table)[o] else 0
  {
    if table != [] {
      var head := if table[0].pollId == pollId then [table[0]] else [];
      var rest := OptionsOf(table[1..], pollId);
      OptionsOfCounts(table[1..], pollId);
      assert table == [table[0]] + table[1..];
      assert OptionsOf(table, pollId) == head + rest;
      assert multiset(head + rest) == multiset(head) + multiset(rest);
      assert multiset(table) == multiset{table[0]} + multiset(table[1..]);
    }
  }

  lemma {:induction false} OptionsOfAppend(a: seq<OptionRecord>, b: seq<OptionRecord>, pollId: string)
    ensures OptionsOf(a + b, pollId) == OptionsOf(a, pollId) + OptionsOf(b, pollId)
  {
    if a != [] {
      assert (a + b)[0] == a[0];
      assert (a + b)[1..] == a[1..] + b;
      OptionsOfAppend(a[1..], b, pollId);
    } else {
      assert a + b == b;
    }
  }

  /** The sum of the vote counts of some options. */
  function SumVotes(opts: seq<OptionRecord>): nat {
    if opts == [] then 0 else opts[0].voteCount + SumVotes(opts[1..])
  }

  lemma {:induction false} SumVotesAppend(a: seq<OptionRecord>, b: seq<OptionRecord>)
    ensures SumVotes(a + b) == SumVotes(a) + SumVotes(b)
  {
    if a != [] {
      assert (a + b)[0] == a[0];
      assert (a + b)[1..] == a[1..] + b;
      SumVotesAppend(a[1..], b);
    } else {
      assert a + b == b;
    }
  }

  /** The vote total of a poll, summed over the option table. */
  function PollTotal(table: seq<OptionRecord>, pollId: string): nat {
    SumVotes(OptionsOf(table, pollId))
  }

  /** The row after `option.update({ where: { id }, data: { voteCount: { increment: 1 } } })`. */
  function Bump(o: OptionRecord, id: string): (r: OptionRecord)
    ensures r.id == o.id && r.pollId == o.pollId && r.text == o.text
    ensures r.voteCount == if o.id == id then o.voteCount + 1 else o.voteCount
  {
    if o.id == id then o.(voteCount := o.voteCount + 1) else o
  }

  /**
   * Incrementing one row raises the total of the poll owning it by exactly one
   * and leaves the total of every other poll as it was.
   */
  lemma {:induction false} BumpRaisesOwnPollTotal(table: seq<OptionRecord>, k: nat, q: string)
    requires k < |table|
    ensures PollTotal(table[k := Bump(table[k], table[k].id)], q)
            == PollTotal(table, q) + (if table[k].pollId == q then 1 else 0)
  {
    var x := Bump(table[k], table[k].id);
    var t' := table[k := x];
    PollTotalUnfold(t', q);
    PollTotalUnfold(table, q);
    if k == 0 {
      assert t'[1..] == table[1..];
    } else {
      assert t'[1..] == table[1..][k - 1 := x];
      BumpRaisesOwnPollTotal(table[1..], k - 1, q);
    }
  }

  /** The total of a non-empty table is the first row's share plus the total of the rest. */
  lemma PollTotalUnfold(table: seq<OptionRecord>, q: string)
    requires table != []
    ensures PollTotal(table, q) == (if table[0].pollId == q then table[0].voteCount else 0) + PollTotal(table[1..], q)
  {
    var head := if table[0].pollId == q then [table[0]] else [];
    var rest := OptionsOf(table[1..], q);
    assert OptionsOf(table, q) == head + rest;
    SumVotesAppend(head, rest);
    if head != [] {
      assert head[1..] == [];
    }
  }

  /** The first poll row with this id (`findUnique`). */
  function FindPoll(polls: seq<PollRecord>, id: string): (r: Option<PollRecord>)
    ensures r.Some? <==> exists p :: p in polls && p.id == id
    ensures r.Some? ==> r.value in polls && r.value.id == id
  {
    if polls == [] then None
    else if polls[0].id == id then Some(polls[0])
    else FindPoll(polls[1..], id)
  }

  function ViewOf(p: PollRecord, table: seq<OptionRecord>): (v: PollView)
    ensures v.id == p.id && v.question == p.question && v.createdAt == p.createdAt
    ensures v.options == OptionsOf(table, p.id)
  {
    PollView(p.id, p.question, p.createdAt, OptionsOf(table, p.id))
  }

  // ---------------------------------------------------------------------------
  // Listing: `orderBy: { createdAt: 'desc' }, take: 50`

  predicate NewestFirst(s: seq<PollRecord>) {
    forall i, j :: 0 <= i < j < |s| ==> s[i].createdAt >= s[j].createdAt
  }

  /** Puts `p` into a newest-first sequence, before the first poll that is not newer. */
  function Insert(p: PollRecord, s: seq<PollRecord>): (r: seq<PollRecord>)
    requires NewestFirst(s)
    ensures |r| == |s| + 1
    ensures r[0] == p || (s != [] && r[0] == s[0])
    ensures NewestFirst(r)
    ensures multiset(r) == multiset(s) + multiset{p}
  {
    if s == [] || s[0].createdAt <= p.createdAt then
      ConsNewestFirst(p, s);
      [p] + s
    else
      var tail := s[1..];
      var rest := Insert(p, tail);
      assert s == [s[0]] + tail;
      assert rest[0].createdAt <= s[0].createdAt;
      ConsNewestFirst(s[0], rest);
      [s[0]] + rest
  }

  /** A poll no older than the head of a newest-first sequence can go in front of it. */
  lemma ConsNewestFirst(x: PollRecord, s: seq<PollRecord>)
    requires NewestFirst(s)
    requires s != [] ==> s[0].createdAt <= x.createdAt
    ensures NewestFirst([x] + s)
  {
    var r := [x] + s;
    forall i, j | 0 <= i < j < |r| ensures r[i].createdAt >= r[j].createdAt {
      assert r[j] == s[j - 1];
      if i > 0 {
        assert r[i] == s[i - 1];
      } else if j > 1 {
        assert s[0].createdAt >= s[j - 1].createdAt;
      }
    }
  }

  /** The poll table ordered newest first. */
  function SortNewestFirst(s: seq<PollRecord>): (r: seq<PollRecord>)
    ensures NewestFirst(r)
    ensures multiset(r) == multiset(s)
  {
    if s == [] then []
    else
      assert s == [s[0]] + s[1..];
      Insert(s[0], SortNewestFirst(s[1..]))
  }

  /** The poll rows a listing returns: the newest 50, newest first. */
  function Listed(polls: seq<PollRecord>): (r: seq<PollRecord>)
    ensures |r| == if |polls| < ListLimit then |polls| else ListLimit
    ensures NewestFirst(r)
    ensures forall p :: p in r ==> p in polls
    ensures multiset(r) <= multiset(polls)
  {
    var sorted := SortNewestFirst(polls);
    assert |sorted| == |polls| by { assert |multiset(sorted)| == |multiset(polls)|; }
    var r := if |sorted| <= ListLimit then sorted else sorted[..ListLimit];
    assert multiset(r) <= multiset(sorted) by {
      if |sorted| > ListLimit {
        assert sorted == r + sorted[ListLimit..];
        assert multiset(sorted) == multiset(r) + multiset(sorted[ListLimit..]);
      }
    }
    assert forall p :: p in r ==> p in polls by {
      forall p | p in r ensures p in polls {
        assert p in multiset(sorted);
      }
    }
    r
  }

  /** `GET /api/polls`: the listed rows, each with its options embedded. */
  function ListPolls(polls: seq<PollRecord>, table: seq<OptionRecord>): (r: seq<PollView>)
    ensures |r| == |Listed(polls)|
    ensures forall i :: 0 <= i < |r| ==> r[i] == ViewOf(Listed(polls)[i], table)
  {
    var listed := Listed(polls);
    seq(|listed|, i requires 0 <= i < |listed| => ViewOf(listed[i], table))
  }

  /** The poll row a view was built from. */
  function RowOf(v: PollView): PollRecord {
    PollRecord(v.id, v.question, v.createdAt)
  }

  function RowsOf(vs: seq<PollView>): (r: seq<PollRecord>)
    ensures |r| == |vs|
    ensures forall i :: 0 <= i < |vs| ==> r[i] == RowOf(vs[i])
  {
    seq(|vs|, i requires 0 <= i < |vs| => RowOf(vs[i]))
  }

  /** The views of a listing are built from exactly the listed rows, in order. */
  lemma ListPollsRows(polls: seq<PollRecord>, table: seq<OptionRecord>)
    ensures RowsOf(ListPolls(polls, table)) == Listed(polls)
  {
    var r := ListPolls(polls, table);
    forall i | 0 <= i < |r| ensures RowsOf(r)[i] == Listed(polls)[i] {
      assert r[i] == ViewOf(Listed(polls)[i], table);
    }
  }

  /**
   * The listing keeps the newest polls: every poll left out is no newer than every
   * poll listed, and only polls beyond the first 50 are ever left out.
   */
  lemma ListedAreNewest(polls: seq<PollRecord>)
    ensures forall p, i :: p in polls && p !in Listed(polls) && 0 <= i < |Listed(polls)| ==>
              Listed(polls)[i].createdAt >= p.createdAt
    ensures |polls| <= ListLimit ==> forall p :: p in polls ==> p in Listed(polls)
  {
    var sorted := SortNewestFirst(polls);
    ListedIsPrefix(polls);
    PrefixIsNewest(sorted, |Listed(polls)|);
    assert forall p :: p in polls <==> p in sorted by {
      forall p ensures p in polls <==> p in sorted {
        assert p in polls <==> p in multiset(polls);
        assert p in sorted <==> p in multiset(sorted);
      }
    }
  }

  /** In a newest-first sequence, nothing after the first `n` is newer than anything among them. */
  lemma PrefixIsNewest(s: seq<PollRecord>, n: nat)
    requires NewestFirst(s) && n <= |s|
    ensures forall p, i :: p in s && p !in s[..n] && 0 <= i < n ==> s[i].createdAt >= p.createdAt
  {
    forall p, i | p in s && p !in s[..n] && 0 <= i < n ensures s[i].createdAt >= p.createdAt {
      var j :| 0 <= j < |s| && s[j] == p;
      assert forall k :: 0 <= k < n ==> s[..n][k] == s[k];
      assert n <= j;
    }
  }

  /** The listing is the first min(50, n) polls of the newest-first order. */
  lemma ListedIsPrefix(polls: seq<PollRecord>)
    ensures |SortNewestFirst(polls)| == |polls|
    ensures Listed(polls) == SortNewestFirst(polls)[..|Listed(polls)|]
    ensures |polls| <= ListLimit ==> Listed(polls) == SortNewestFirst(polls)
  {
    var sorted := SortNewestFirst(polls);
    assert |sorted| == |polls| by { assert |multiset(sorted)| == |multiset(polls)|; }
  }

  /**
   * A listing holds min(50, n) polls, newest first, each a stored poll with its own
   * options; no poll left out is newer than a listed one, and with 50 or fewer none is left out.
   */
  lemma ListPollsNewest(polls: seq<PollRecord>, table: seq<OptionRecord>)
    ensures var r := ListPolls(polls, table);
            && |r| == (if |polls| < ListLimit then |polls| else ListLimit)
            && (forall i, j :: 0 <= i < j < |r| ==> r[i].createdAt >= r[j].createdAt)
            && (forall i :: 0 <= i < |r| ==> RowOf(r[i]) in polls && r[i].options == OptionsOf(table, r[i].id))
            && multiset(RowsOf(r)) <= multiset(polls)
            && (forall p, i :: p in polls && p !in RowsOf(r) && 0 <= i < |r| ==> r[i].createdAt >= p.createdAt)
            && (|polls| <= ListLimit ==> forall p :: p in polls ==> p in RowsOf(r))
  {
    var r := ListPolls(polls, table);
    var listed := Listed(polls);
    ListPollsRows(polls, table);
    ListedAreNewest(polls);
    forall i | 0 <= i < |r| ensures RowOf(r[i]) in polls && r[i].options == OptionsOf(table, r[i].id) {
      assert RowOf(r[i]) == listed[i] && listed[i] in listed;
    }
    forall i, j | 0 <= i < j < |r| ensures r[i].createdAt >= r[j].createdAt {
      assert r[i].createdAt == listed[i].createdAt && r[j].createdAt == listed[j].createdAt;
    }
    forall p, i | p in polls && p !in RowsOf(r) && 0 <= i < |r| ensures r[i].createdAt >= p.createdAt {
      assert r[i].createdAt == listed[i].createdAt;
    }
  }
}
