/**
 * The create-poll page (frontend/src/pages/CreatePoll.jsx): the list of option
 * fields with its add/remove/set edits, the client-side check made before the
 * request is sent, and the page state those handlers update.
 */
module CreatePollForm {
  import opened Wrappers
  import opened Text
  import opened JsValues
  import PollService

  /** The fewest option fields the form shows. */
  const MinOptions: nat := 2

  const QuestionMissingText: string := "Please enter a question."
  const TooFewOptionsText: string := "Please add at least 2 options."
  const CreateFailedText: string := "Failed to create poll."

  /** The option fields of a freshly opened form: two empty ones. */
  function InitialOptions(): (r: seq<string>)
    ensures |r| == MinOptions
    ensures forall k :: 0 <= k < |r| ==> r[k] == ""
  {
    ["", ""]
  }

  /** `addOption`: one empty field at the end. */
  function AddOption(o: seq<string>): (r: seq<string>)
    ensures |r| == |o| + 1
    ensures r[..|o|] == o && r[|o|] == ""
  {
    o + [""]
  }

  /** `o.filter((_, idx) => idx !== i)`: the fields other than the one at position `i`. */
  function WithoutIndex(o: seq<string>, i: int): (r: seq<string>)
    ensures 0 <= i < |o| ==> r == o[..i] + o[i + 1..]
    ensures !(0 <= i < |o|) ==> r == o
  {
    if o == [] then []
    else (if i == 0 then [] else [o[0]]) + WithoutIndex(o[1..], i - 1)
  }

  /** `removeOption(i)`: does nothing while only the minimum is left. */
  function RemoveOption(o: seq<string>, i: int): (r: seq<string>)
    ensures |o| <= MinOptions ==> r == o
    ensures |o| > MinOptions && 0 <= i < |o| ==> r == o[..i] + o[i + 1..]
    ensures |o| > MinOptions && !(0 <= i < |o|) ==> r == o
    ensures |o| >= MinOptions ==> |r| >= MinOptions
  {
    if |o| <= MinOptions then o else WithoutIndex(o, i)
  }

  /** `setOption(i, value)`: field `i` takes the new value, every other field stays. */
  function SetOption(o: seq<string>, i: int, value: string): (r: seq<string>)
    ensures |r| == |o|
    ensures 0 <= i < |o| ==> r[i] == value
    ensures forall k :: 0 <= k < |o| && k != i ==> r[k] == o[k]
  {
    seq(|o|, k requires 0 <= k < |o| => if k == i then value else o[k])
  }

  /** Removing the field just added gives the fields back. */
  lemma RemoveUndoesAdd(o: seq<string>)
    requires |o| >= MinOptions
    ensures RemoveOption(AddOption(o), |o|) == o
  {
    assert AddOption(o)[..|o|] == o;
  }

  /** Writing back the old value of a field gives the fields back. */
  lemma SetOptionUndo(o: seq<string>, i: int, value: string)
    requires 0 <= i < |o|
    ensures SetOption(SetOption(o, i, value), i, o[i]) == o
  {
  }

  /** `options.map((o) => o.trim())`. */
  function TrimAll(o: seq<string>): (r: seq<string>)
    ensures |r| == |o|
    ensures forall k :: 0 <= k < |o| ==> r[k] == Trim(o[k])
    ensures forall t :: t in r ==> IsTrimmed(t)
  {
    seq(|o|, k requires 0 <= k < |o| => Trim(o[k]))
  }

  /** `options.map((o) => o.trim()).filter(Boolean)`. */
  function TrimmedOptions(o: seq<string>): (r: seq<string>)
    ensures |r| <= |o|
    ensures forall k :: 0 <= k < |r| ==> r[k] != "" && IsTrimmed(r[k])
  {
    var r := NonBlank(TrimAll(o));
    assert forall k :: 0 <= k < |r| ==> r[k] in r;
    r
  }

  /** What the form sends once its own check passes. */
  datatype Submission = Submission(question: string, options: seq<string>)

  /** The check `handleSubmit` makes before anything is sent, in its order. */
  function CheckForm(question: string, options: seq<string>): (r: Result<Submission, string>)
    ensures r == Failure(QuestionMissingText) <==> Trim(question) == ""
    ensures r == Failure(TooFewOptionsText) <==> Trim(question) != "" && |TrimmedOptions(options)| < MinOptions
    ensures r.Success? <==> Trim(question) != "" && |TrimmedOptions(options)| >= MinOptions
    ensures r.Success? ==> r.value == Submission(Trim(question), TrimmedOptions(options))
  {
    if Trim(question) == "" then Failure(QuestionMissingText)
    else
      var trimmed := TrimmedOptions(options);
      if |trimmed| < MinOptions then Failure(TooFewOptionsText)
      else Success(Submission(Trim(question), trimmed))
  }

  /** The body the api layer posts for a submission; it trims the question once more. */
  function RequestBody(s: Submission): PollService.CreateBody {
    PollService.CreateBody(Str(Trim(s.question)), Arr(Strs(s.options)))
  }

  /** The client's trim-and-filter is the server's normalisation applied to an array of strings. */
  lemma TrimmedOptionsIsServerNormalisation(o: seq<string>)
    ensures TrimmedOptions(o) == PollService.NormaliseOptions(Strs(o))
  {
    assert TrimAll(o) == PollService.TrimEntries(Strs(o));
  }

  /** A list with no blank or untrimmed entries passes the server's normalisation unchanged. */
  lemma NormalisingTrimmedIsIdentity(o: seq<string>)
    requires forall k :: 0 <= k < |o| ==> o[k] != "" && IsTrimmed(o[k])
    ensures PollService.NormaliseOptions(Strs(o)) == o
  {
    TrimmedOptionsIsServerNormalisation(o);
    TrimAllOfTrimmed(o);
    NonBlankOfNonEmpty(o);
  }

  lemma TrimAllOfTrimmed(o: seq<string>)
    requires forall k :: 0 <= k < |o| ==> IsTrimmed(o[k])
    ensures TrimAll(o) == o
  {
    forall k | 0 <= k < |o| ensures TrimAll(o)[k] == o[k] {
      TrimOfTrimmed(o[k]);
    }
  }

  /** What the form sends once its check passes is data the server may store. */
  lemma CheckedIsWellFormed(question: string, options: seq<string>)
    ensures CheckForm(question, options).Success? ==>
              var s := CheckForm(question, options).value;
              PollService.WellFormed(PollService.NewPoll(s.question, s.options))
  {
  }

  /**
   * A submission with a non-blank trimmed question and 2 or more non-blank trimmed
   * options passes the create-poll validation unchanged, the extra trim included.
   */
  lemma WellFormedPassesServer(s: Submission)
    requires PollService.WellFormed(PollService.NewPoll(s.question, s.options))
    ensures PollService.ValidateCreate(RequestBody(s)) == Success(PollService.NewPoll(s.question, s.options))
  {
    var body := RequestBody(s);
    assert body.question == Str(s.question) by {
      TrimOfTrimmed(s.question);
    }
    assert PollService.NormaliseOptions(body.options.elems) == s.options by {
      NormalisingTrimmedIsIdentity(s.options);
    }
    assert PollService.QuestionOk(body.question) by {
      TrimOfTrimmed(s.question);
    }
  }

  /**
   * What the form accepts, the server accepts: the request it sends passes
   * the create-poll validation, and the server stores exactly the submitted,
   * already trimmed, question and options.
   */
  lemma AcceptedFormPassesServer(question: string, options: seq<string>)
    ensures CheckForm(question, options).Success? ==>
              var s := CheckForm(question, options).value;
              PollService.ValidateCreate(RequestBody(s)) == Success(PollService.NewPoll(s.question, s.options))
  {
    if CheckForm(question, options).Success? {
      CheckedIsWellFormed(question, options);
      WellFormedPassesServer(CheckForm(question, options).value);
    }
  }

  /**
   * The form's check mirrors the server's on the same fields: a blank question,
   * too few options and acceptance are decided alike.
   */
  lemma FormMirrorsServer(question: string, options: seq<string>)
    ensures var server := PollService.ValidateCreate(PollService.CreateBody(Str(question), Arr(Strs(options))));
            && (CheckForm(question, options) == Failure(QuestionMissingText) <==> server == Failure(PollService.QuestionRequired))
            && (CheckForm(question, options) == Failure(TooFewOptionsText) <==> server == Failure(PollService.TooFewOptions))
            && (CheckForm(question, options).Success? <==> server.Success?)
  {
    TrimmedOptionsIsServerNormalisation(options);
  }

  /**
   * A server rejection reaches the page as its own text: the api layer throws
   * `data.error || res.statusText`, and the page shows `err.message || fallback`;
   * the server's texts are never empty, so neither fallback is taken.
   */
  lemma RejectionShowsServerText(e: PollService.ApiError, statusText: string)
    ensures MessageOr(MessageOr(e.Message(), statusText), CreateFailedText) == e.Message()
  {
  }

  /** What the api layer reports back for a create request. */
  datatype CreateReply = Created(pollId: string) | Rejected(message: string)

  /** The state of the create-poll page. */
  class CreatePollPage {
    var question: string
    var options: seq<string>
    var error: string
    var loading: bool

    /** The form never shows fewer than the minimum number of option fields. */
    ghost predicate Valid()
      reads this
    {
      |options| >= MinOptions
    }

    constructor ()
      ensures Valid()
      ensures question == "" && options == InitialOptions() && error == "" && !loading
    {
      question := "";
      options := InitialOptions();
      error := "";
      loading := false;
    }

    method EditQuestion(value: string)
      modifies this
      ensures question == value
      ensures options == old(options) && error == old(error) && loading == old(loading)
    {
      question := value;
    }

    method Add()
      requires Valid()
      modifies this
      ensures Valid()
      ensures options == AddOption(old(options))
      ensures question == old(question) && error == old(error) && loading == old(loading)
    {
      options := AddOption(options);
    }

    method Remove(i: int)
      requires Valid()
      modifies this
      ensures Valid()
      ensures options == RemoveOption(old(options), i)
      ensures question == old(question) && error == old(error) && loading == old(loading)
    {
      options := RemoveOption(options, i);
    }

    method Edit(i: int, value: string)
      requires Valid()
      modifies this
      ensures Valid()
      ensures options == SetOption(old(options), i, value)
      ensures question == old(question) && error == old(error) && loading == old(loading)
    {
      options := SetOption(options, i, value);
    }

    /**
     * `handleSubmit`. `reply` is what the api layer would report if a request were
     * sent; `sent` is the request actually sent and `navigateTo` the route opened.
     */
    method Submit(reply: CreateReply) returns (sent: Option<PollService.CreateBody>, navigateTo: Option<string>)
      requires Valid()
      modifies this
      ensures Valid()
      ensures question == old(question) && options == old(options)
      ensures CheckForm(old(question), old(options)).Failure? ==>
                && sent == None && navigateTo == None && loading == old(loading)
                && error == CheckForm(old(question), old(options)).error
      ensures CheckForm(old(question), old(options)).Success? ==>
                var s := CheckForm(old(question), old(options)).value;
                && sent == Some(RequestBody(s))
                && PollService.ValidateCreate(sent.value) == Success(PollService.NewPoll(s.question, s.options))
                && (reply.Created? ==> navigateTo == Some("/polls/" + reply.pollId) && error == "")
                && !loading
                && (reply.Rejected? ==>
                      navigateTo == None && error == MessageOr(reply.message, CreateFailedText))
    {
      var check := CheckForm(question, options);
      assert check == CheckForm(old(question), old(options));
      error := "";
      if check.Failure? {
        sent, navigateTo := None, None;
        error := check.error;
        return;
      }
      AcceptedFormPassesServer(question, options);
      sent, navigateTo := Send(check.value, reply);
    }

    /** The request part of `handleSubmit`: loading while the create request is out, then its outcome. */
    method Send(s: Submission, reply: CreateReply) returns (sent: Option<PollService.CreateBody>, navigateTo: Option<string>)
      requires Valid()
      modifies this
      ensures Valid()
      ensures question == old(question) && options == old(options)
      ensures sent == Some(RequestBody(s))
      ensures !loading
      ensures reply.Created? ==> navigateTo == Some("/polls/" + reply.pollId) && error == old(error)
      ensures reply.Rejected? ==> navigateTo == None && error == MessageOr(reply.message, CreateFailedText)
    {
      loading := true;
      sent, navigateTo := Some(RequestBody(s)), None;
      match reply {
        case Created(id) =>
          navigateTo := Some("/polls/" + id);
        case Rejected(message) =>
          error := MessageOr(message, CreateFailedText);
      }
      loading := false;
    }
  }
}
