/**
 * The poll service's handlers (backend/src/index.ts) over an in-memory store that
 * stands for the relational tables: a poll table and an option table, each in
 * insertion order. The store also keeps, as a ghost field, the multiset of the
 * option ids of all accepted votes, so that every vote count can be tied to the
 * votes that produced it.
 */
module PollStore {
  import opened Wrappers
  import opened JsValues
  import opened PollService

  /** The option rows a successful create inserts: one per text, in order, with no votes. */
  function NewOptions(pollId: string, texts: seq<string>, ids: seq<string>): (r: seq<OptionRecord>)
    requires |ids| >= |texts|
    ensures |r| == |texts|
    ensures forall k :: 0 <= k < |texts| ==> r[k] == OptionRecord(ids[k], pollId, texts[k], 0)
  {
    seq(|texts|, k requires 0 <= k < |texts| => OptionRecord(ids[k], pollId, texts[k], 0))
  }

  /** The most option rows a create request can lead to: one per entry of its options array. */
  function CandidateCount(body: CreateBody): nat {
    if body.options.Arr? then |body.options.elems| else 0
  }

  /** The option with this id exists and belongs to this poll (`findFirst({ where: { id, pollId } })`). */
  predicate BelongsTo(table: seq<OptionRecord>, optionId: string, pollId: string) {
    exists k :: 0 <= k < |table| && table[k].id == optionId && table[k].pollId == pollId
  }

  predicate Distinct(ids: seq<string>) {
    forall i, j :: 0 <= i < j < |ids| ==> ids[i] != ids[j]
  }

  function PollIdsOf(polls: seq<PollRecord>): set<string> {
    set p | p in polls :: p.id
  }

  function OptionIdsOf(table: seq<OptionRecord>): set<string> {
    set o | o in table :: o.id
  }

  /**
   * The table invariants: ids are unique in each table, every option belongs to a
   * stored poll, and every vote count is the number of accepted votes for that option.
   */
  ghost predicate TablesValid(polls: seq<PollRecord>, table: seq<OptionRecord>, ballots: multiset<string>) {
    && (forall i, j :: 0 <= i < j < |polls| ==> polls[i].id != polls[j].id)
    && (forall i, j :: 0 <= i < j < |table| ==> table[i].id != table[j].id)
    && (forall k :: 0 <= k < |table| ==> table[k].pollId in PollIdsOf(polls))
    && (forall k :: 0 <= k < |table| ==> table[k].voteCount == ballots[table[k].id])
    && (forall id :: id in ballots ==> id in OptionIdsOf(table))
  }

  /** Adding a poll with a fresh id and fresh, vote-less options of its own keeps the invariants. */
  lemma CreateKeepsValid(polls: seq<PollRecord>, table: seq<OptionRecord>, ballots: multiset<string>,
                         record: PollRecord, created: seq<OptionRecord>)
    requires TablesValid(polls, table, ballots)
    requires record.id !in PollIdsOf(polls)
    requires forall i, j :: 0 <= i < j < |created| ==> created[i].id != created[j].id
    requires forall k :: 0 <= k < |created| ==>
               created[k].id !in OptionIdsOf(table) && created[k].pollId == record.id && created[k].voteCount == 0
    ensures TablesValid(polls + [record], table + created, ballots)
  {
    var ps := polls + [record];
    var os := table + created;
    forall i, j | 0 <= i < j < |ps| ensures ps[i].id != ps[j].id {
      if j == |polls| { assert ps[i] in polls; }
    }
    forall i, j | 0 <= i < j < |os| ensures os[i].id != os[j].id {
      if i < |table| <= j {
        assert os[j] == created[j - |table|];
        assert table[i] in table;
      } else if |table| <= i {
        assert os[i] == created[i - |table|] && os[j] == created[j - |table|];
      }
    }
    forall k | 0 <= k < |os| ensures os[k].pollId in PollIdsOf(ps) {
      if k < |table| {
        assert table[k].pollId in PollIdsOf(polls);
        var p :| p in polls && p.id == table[k].pollId;
        assert p in ps;
      } else {
        assert os[k] == created[k - |table|];
        assert record in ps;
      }
    }
    forall k | 0 <= k < |os| ensures os[k].voteCount == ballots[os[k].id] {
      if k >= |table| {
        assert os[k] == created[k - |table|];
        assert os[k].id !in ballots;
      }
    }
    forall id | id in ballots ensures id in OptionIdsOf(os) {
      var o :| o in table && o.id == id;
      assert o in os;
    }
  }

  /** The re-read of a freshly created poll finds its row and exactly the options created with it. */
  lemma CreatedIsReadBack(polls: seq<PollRecord>, table: seq<OptionRecord>, ballots: multiset<string>,
                          record: PollRecord, created: seq<OptionRecord>)
    requires TablesValid(polls, table, ballots)
    requires record.id !in PollIdsOf(polls)
    requires forall k :: 0 <= k < |created| ==> created[k].pollId == record.id
    ensures FindPoll(polls + [record], record.id) == Some(record)
    ensures OptionsOf(table + created, record.id) == created
  {
    assert forall k :: 0 <= k < |table| ==> table[k].pollId != record.id;
    NoOptionsOfFreshPoll(table, record.id);
    OptionsOfAppend(table, created, record.id);
    AllOptionsOf(created, record.id);
    assert forall q :: q in polls ==> q.id != record.id;
    FindAppended(polls, record);
  }

  /** A create with fresh, distinct option ids keeps the invariants and reads back what it inserted. */
  lemma CreateStep(polls: seq<PollRecord>, table: seq<OptionRecord>, ballots: multiset<string>,
                   record: PollRecord, texts: seq<string>, ids: seq<string>)
    requires TablesValid(polls, table, ballots)
    requires record.id !in PollIdsOf(polls)
    requires Distinct(ids) && |ids| >= |texts|
    requires forall k :: 0 <= k < |ids| ==> ids[k] !in OptionIdsOf(table)
    ensures TablesValid(polls + [record], table + NewOptions(record.id, texts, ids), ballots)
    ensures FindPoll(polls + [record], record.id) == Some(record)
    ensures OptionsOf(table + NewOptions(record.id, texts, ids), record.id) == NewOptions(record.id, texts, ids)
  {
    var created := NewOptions(record.id, texts, ids);
    CreateKeepsValid(polls, table, ballots, record, created);
    CreatedIsReadBack(polls, table, ballots, record, created);
  }

  /** The number of accepted votes recorded for some options. */
  function BallotsFor(opts: seq<OptionRecord>, ballots: multiset<string>): nat {
    if opts == [] then 0 else ballots[opts[0].id] + BallotsFor(opts[1..], ballots)
  }

  /**
   * When every count is the number of its ballots, a poll's vote total is the number
   * of accepted votes for its options.
   */
  lemma {:induction false} PollTotalCountsBallots(table: seq<OptionRecord>, ballots: multiset<string>, q: string)
    requires forall k :: 0 <= k < |table| ==> table[k].voteCount == ballots[table[k].id]
    ensures PollTotal(table, q) == BallotsFor(OptionsOf(table, q), ballots)
  {
    if table != [] {
      PollTotalUnfold(table, q);
      PollTotalCountsBallots(table[1..], ballots, q);
      var rest := OptionsOf(table[1..], q);
      if table[0].pollId == q {
        var own := [table[0]] + rest;
        assert OptionsOf(table, q) == own;
        assert own[0] == table[0] && own[1..] == rest;
      } else {
        assert OptionsOf(table, q) == rest;
      }
    }
  }

  /** In a valid store, a poll's vote total is the number of votes accepted for its options. */
  lemma TotalIsAcceptedVotes(polls: seq<PollRecord>, table: seq<OptionRecord>, ballots: multiset<string>, q: string)
    requires TablesValid(polls, table, ballots)
    ensures PollTotal(table, q) == BallotsFor(OptionsOf(table, q), ballots)
  {
    PollTotalCountsBallots(table, ballots, q);
  }

  /** Incrementing one option row and recording its ballot keeps the invariants. */
  lemma VoteKeepsValid(polls: seq<PollRecord>, table: seq<OptionRecord>, ballots: multiset<string>, i: nat)
    requires TablesValid(polls, table, ballots)
    requires i < |table|
    ensures var id := table[i].id;
            TablesValid(polls, table[i := Bump(table[i], id)], ballots + multiset{id})
    ensures forall k :: 0 <= k < |table| ==> table[i := Bump(table[i], table[i].id)][k] == Bump(table[k], table[i].id)
  {
    var id := table[i].id;
    var os := table[i := Bump(table[i], id)];
    var bs := ballots + multiset{id};
    forall k | 0 <= k < |table| ensures os[k] == Bump(table[k], id) {
      if k != i { assert table[k].id != id; }
    }
    assert OptionIdsOf(os) == OptionIdsOf(table) by {
      forall x | x in OptionIdsOf(os) ensures x in OptionIdsOf(table) {
        var o :| o in os && o.id == x;
        var k :| 0 <= k < |os| && os[k] == o;
        assert table[k] in table;
      }
      forall x | x in OptionIdsOf(table) ensures x in OptionIdsOf(os) {
        var o :| o in table && o.id == x;
        var k :| 0 <= k < |table| && table[k] == o;
        assert os[k] in os;
      }
    }
    forall k | 0 <= k < |os| ensures os[k].voteCount == bs[os[k].id] {
      if k != i { assert table[k].id != id; }
    }
  }

  class Store {
    var polls: seq<PollRecord>
    var options: seq<OptionRecord>
    /** The option ids of all votes accepted so far. */
    ghost var ballots: multiset<string>

    function PollIds(): set<string>
      reads this
    {
      PollIdsOf(polls)
    }

    function OptionIds(): set<string>
      reads this
    {
      OptionIdsOf(options)
    }

    ghost predicate Valid()
      reads this
    {
      TablesValid(polls, options, ballots)
    }

    constructor ()
      ensures Valid()
      ensures polls == [] && options == [] && ballots == multiset{}
    {
      polls := [];
      options := [];
      ballots := multiset{};
    }

    /** `GET /api/polls/:id`. */
    function Get(id: string): (r: Result<PollView, ApiError>)
      reads this
      ensures r.Failure? <==> id !in PollIds()
      ensures r.Failure? ==> r.error == PollNotFound
      ensures r.Success? ==>
                r.value.id == id && r.value.options == OptionsOf(options, id)
                && PollRecord(id, r.value.question, r.value.createdAt) in polls
    {
      match FindPoll(polls, id)
      case None => Failure(PollNotFound)
      case Some(p) => Success(ViewOf(p, options))
    }

    /** `GET /api/polls`. */
    function List(): (r: seq<PollView>)
      reads this
      ensures |r| == if |polls| < ListLimit then |polls| else ListLimit
      ensures forall i, j :: 0 <= i < j < |r| ==> r[i].createdAt >= r[j].createdAt
      ensures forall i :: 0 <= i < |r| ==> RowOf(r[i]) in polls && r[i].options == OptionsOf(options, r[i].id)
      ensures multiset(RowsOf(r)) <= multiset(polls)
      ensures forall p, i :: p in polls && p !in RowsOf(r) && 0 <= i < |r| ==> r[i].createdAt >= p.createdAt
      ensures |polls| <= ListLimit ==> forall p :: p in polls ==> p in RowsOf(r)
    {
      ListPollsNewest(polls, options);
      ListPolls(polls, options)
    }

    /**
     * `POST /api/polls`. The store's id generator and clock are parameters:
     * `pollId` and `optionIds` are fresh ids and `createdAt` is the creation time.
     */
    method Create(body: CreateBody, pollId: string, optionIds: seq<string>, createdAt: int)
      returns (r: Result<PollView, ApiError>)
      requires Valid()
      requires pollId !in PollIds()
      requires Distinct(optionIds) && |optionIds| >= CandidateCount(body)
      requires forall k :: 0 <= k < |optionIds| ==> optionIds[k] !in OptionIds()
      modifies this
      ensures Valid()
      ensures ballots == old(ballots)
      ensures ValidateCreate(body).Failure? ==>
                r == Failure(ValidateCreate(body).error) && polls == old(polls) && options == old(options)
      ensures ValidateCreate(body).Success? ==>
                var np := ValidateCreate(body).value;
                var created := NewOptions(pollId, np.texts, optionIds);
                && polls == old(polls) + [PollRecord(pollId, np.question, createdAt)]
                && options == old(options) + created
                && r == Success(PollView(pollId, np.question, createdAt, created))
                && r == Get(pollId)
    {
      var v := ValidateCreate(body);
      if v.Failure? {
        return Failure(v.error);
      }
      NormaliseOptionsShorter(body);
      r := Insert(PollRecord(pollId, v.value.question, createdAt), v.value.texts, optionIds);
    }

    /**
     * The nested insert of `prisma.poll.create`: the poll row and one vote-less option
     * row per text, answered with the created poll and its options.
     */
    method Insert(record: PollRecord, texts: seq<string>, optionIds: seq<string>)
      returns (r: Result<PollView, ApiError>)
      requires Valid()
      requires record.id !in PollIds()
      requires Distinct(optionIds) && |optionIds| >= |texts|
      requires forall k :: 0 <= k < |optionIds| ==> optionIds[k] !in OptionIds()
      modifies this
      ensures Valid()
      ensures ballots == old(ballots)
      ensures polls == old(polls) + [record]
      ensures options == old(options) + NewOptions(record.id, texts, optionIds)
      ensures r == Success(PollView(record.id, record.question, record.createdAt, NewOptions(record.id, texts, optionIds)))
      ensures r == Get(record.id)
    {
      var created := NewOptions(record.id, texts, optionIds);
      CreateStep(polls, options, ballots, record, texts, optionIds);
      polls := polls + [record];
      options := options + created;
      r := Success(PollView(record.id, record.question, record.createdAt, created));
      assert Valid();
      assert FindPoll(polls, record.id) == Some(record);
      assert r == Success(ViewOf(record, options));
    }

    /**
     * `POST /api/polls/:id/vote`. The option id comes from the JSON body; an id
     * that is present but not a string is a query the store refuses, which the
     * handler answers with its generic failure.
     */
    method Vote(pollId: string, optionId: JsValue) returns (r: Result<PollView, ApiError>)
      requires Valid()
      modifies this
      ensures Valid()
      ensures polls == old(polls)
      ensures !Truthy(optionId) ==>
                r == Failure(OptionIdRequired) && options == old(options) && ballots == old(ballots)
      ensures Truthy(optionId) && !optionId.Str? ==>
                r == Failure(VoteFailed) && options == old(options) && ballots == old(ballots)
      ensures Truthy(optionId) && optionId.Str? && !BelongsTo(old(options), optionId.s, pollId) ==>
                r == Failure(InvalidOption) && options == old(options) && ballots == old(ballots)
      ensures Truthy(optionId) && optionId.Str? && BelongsTo(old(options), optionId.s, pollId) ==>
                && |options| == |old(options)|
                && (forall k :: 0 <= k < |options| ==> options[k] == Bump(old(options)[k], optionId.s))
                && ballots == old(ballots) + multiset{optionId.s}
                && PollTotal(options, pollId) == PollTotal(old(options), pollId) + 1
                && (forall q :: q != pollId ==> PollTotal(options, q) == PollTotal(old(options), q))
                && r.Success? && r == Get(pollId)
    {
      if !Truthy(optionId) {
        return Failure(OptionIdRequired);
      }
      if !optionId.Str? {
        return Failure(VoteFailed);
      }
      var id := optionId.s;
      var i := 0;
      while i < |options| && !(options[i].id == id && options[i].pollId == pollId)
        invariant 0 <= i <= |options|
        invariant forall k :: 0 <= k < i ==> !(options[k].id == id && options[k].pollId == pollId)
      {
        i := i + 1;
      }
      if i == |options| {
        return Failure(InvalidOption);
      }
      ghost var before := options;
      VoteKeepsValid(polls, options, ballots, i);
      forall q ensures PollTotal(before[i := Bump(before[i], id)], q) == PollTotal(before, q) + (if q == pollId then 1 else 0) {
        BumpRaisesOwnPollTotal(before, i, q);
      }
      options := options[i := Bump(options[i], id)];
      ballots := ballots + multiset{id};
      assert pollId in PollIds();
      r := Get(pollId);
    }
  }

  lemma NormaliseOptionsShorter(body: CreateBody)
    requires ValidateCreate(body).Success?
    ensures |ValidateCreate(body).value.texts| <= CandidateCount(body)
  {
  }

  lemma {:induction false} NoOptionsOfFreshPoll(table: seq<OptionRecord>, pollId: string)
    requires forall k :: 0 <= k < |table| ==> table[k].pollId != pollId
    ensures OptionsOf(table, pollId) == []
  {
    if table != [] {
      NoOptionsOfFreshPoll(table[1..], pollId);
    }
  }

  lemma {:induction false} AllOptionsOf(table: seq<OptionRecord>, pollId: string)
    requires forall k :: 0 <= k < |table| ==> table[k].pollId == pollId
    ensures OptionsOf(table, pollId) == table
  {
    if table != [] {
      AllOptionsOf(table[1..], pollId);
    }
  }

  lemma {:induction false} FindAppended(polls: seq<PollRecord>, p: PollRecord)
    requires forall q :: q in polls ==> q.id != p.id
    ensures FindPoll(polls + [p], p.id) == Some(p)
  {
    if polls != [] {
      assert (polls + [p])[1..] == polls[1..] + [p];
      FindAppended(polls[1..], p);
    }
  }
}
