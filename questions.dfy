/**
 * The survey of src/questions.rs: the prompts are replaced by a scripted
 * record of what each prompt returned, and `ask` becomes the map from those
 * answers to a `SurveyResults` record (or to the prompt failure that makes
 * the source panic).
 */
module Questions {
  import opened Wrappers
  import Text

  datatype SurveyResults = SurveyResults(
    commitType: string,
    scope: Option<string>,
    shortMsg: string,
    longMsg: Option<string>,
    breakingChangesDesc: Option<string>,
    affectedOpenIssues: Option<seq<string>>)

  /** `SurveyResults::new()`, the derived default record. */
  function NewSurveyResults(): (r: SurveyResults)
    ensures r.commitType == "" && r.shortMsg == ""
    ensures r.scope.None? && r.longMsg.None? && r.breakingChangesDesc.None? && r.affectedOpenIssues.None?
  {
    SurveyResults("", None, "", None, None, None)
  }

  /**
   * What each prompt of the session returned, in prompt order. `None` is a
   * prompt whose `interact()` returned an error; `selection` is the index
   * the selection prompt returned.
   */
  datatype Answers = Answers(
    selection: Option<nat>,
    scope: Option<string>,
    shortMsg: Option<string>,
    longMsg: Option<string>,
    breaking: Option<bool>,
    breakingDesc: Option<string>,
    issuesAffected: Option<bool>,
    issues: Option<string>)

  /** The mandatory prompts whose failure is fatal (`unwrap`). */
  datatype SurveyError =
    | SelectFailed           // the type selection returned an error
    | SelectionOutOfRange    // `type_options[selected_index]` out of bounds
    | ShortMsgFailed         // the short message prompt returned an error
    | BreakingConfirmFailed  // the breaking-change confirmation returned an error
    | IssuesConfirmFailed    // the open-issues confirmation returned an error

  /** `options` lists every entry of `types` exactly once, in some order. */
  ghost predicate IsMenuOf(options: seq<(string, string)>, types: map<string, string>)
  {
    && |options| == |types|
    && (forall i :: 0 <= i < |options| ==> options[i].0 in types && types[options[i].0] == options[i].1)
    && (forall k :: k in types ==> exists i :: 0 <= i < |options| && options[i].0 == k)
    && (forall i, j :: 0 <= i < j < |options| ==> options[i].0 != options[j].0)
  }

  /**
   * `types.iter().collect()`: the (name, description) pairs of the map in its
   * iteration order, which the map does not specify (hence the arbitrary choice).
   */
  method TypeOptions(types: map<string, string>) returns (options: seq<(string, string)>)
    ensures IsMenuOf(options, types)
  {
    options := [];
    var remaining := types.Keys;
    while remaining != {}
      invariant remaining <= types.Keys
      invariant |options| + |remaining| == |types|
      invariant forall i :: 0 <= i < |options| ==>
        options[i].0 in types && options[i].0 !in remaining && types[options[i].0] == options[i].1
      invariant forall k :: k in types && k !in remaining ==> exists i :: 0 <= i < |options| && options[i].0 == k
      invariant forall i, j :: 0 <= i < j < |options| ==> options[i].0 != options[j].0
      decreases remaining
    {
      var k :| k in remaining;
      ghost var before := options;
      options := options + [(k, types[k])];
      remaining := remaining - {k};
      forall k' | k' in types && k' !in remaining
        ensures exists i :: 0 <= i < |options| && options[i].0 == k'
      {
        if k' == k {
          assert options[|before|].0 == k';
        } else {
          var i :| 0 <= i < |before| && before[i].0 == k';
          assert options[i].0 == k';
        }
      }
    }
  }

  /** The menu lines shown by the selection prompt, one per option. */
  function MenuItems(options: seq<(string, string)>): (items: seq<string>)
    ensures |items| == |options|
    ensures forall i :: 0 <= i < |options| ==> items[i] == options[i].0 + ": " + options[i].1
  {
    if options == [] then []
    else [options[0].0 + ": " + options[0].1] + MenuItems(options[1..])
  }

  /** `.ok().filter(|v| !v.is_empty())`: a failed or empty answer is absent. */
  function NonEmpty(answer: Option<string>): (r: Option<string>)
    ensures r.Some? <==> answer.Some? && answer.value != ""
    ensures r.Some? ==> r.value == answer.value
  {
    match answer
    case Some(v) => if v == "" then None else Some(v)
    case None => None
  }

  /** `s.split(' ').collect()`: the issue references typed on one line. */
  function IssueList(s: string): (r: seq<string>)
    ensures |r| == Text.Count(s, ' ') + 1
    ensures forall i :: 0 <= i < |r| ==> ' ' !in r[i]
    ensures Text.JoinWith(r, " ") == s
  {
    Text.JoinSplit(s, ' ');
    Text.Split(s, ' ')
  }

  /** The error `ask` stops at: the first mandatory prompt that fails. */
  function FirstFailure(options: seq<(string, string)>, answers: Answers): Option<SurveyError>
  {
    if answers.selection.None? then Some(SelectFailed)
    else if answers.selection.value >= |options| then Some(SelectionOutOfRange)
    else if answers.shortMsg.None? then Some(ShortMsgFailed)
    else if answers.breaking.None? then Some(BreakingConfirmFailed)
    else if answers.issuesAffected.None? then Some(IssuesConfirmFailed)
    else None
  }

  /** `ask`: run the prompts in order and fill the record field by field. */
  method Ask(types: map<string, string>, answers: Answers)
    returns (r: Result<SurveyResults, SurveyError>, options: seq<(string, string)>)
    ensures IsMenuOf(options, types)
    ensures r.Err? <==> FirstFailure(options, answers).Some?
    ensures r.Err? ==> r.error == FirstFailure(options, answers).value
    ensures r.Ok? ==>
      && answers.selection.value < |options|
      && r.value.commitType == options[answers.selection.value].0
      && r.value.commitType in types
    ensures r.Ok? ==>
      MenuItems(options)[answers.selection.value] == r.value.commitType + ": " + types[r.value.commitType]
    ensures r.Ok? ==> r.value.scope == NonEmpty(answers.scope) && r.value.scope != Some("")
    ensures r.Ok? ==> Some(r.value.shortMsg) == answers.shortMsg
    ensures r.Ok? ==> r.value.longMsg == NonEmpty(answers.longMsg) && r.value.longMsg != Some("")
    ensures r.Ok? ==>
      r.value.breakingChangesDesc == (if answers.breaking == Some(true) then answers.breakingDesc else None)
    ensures r.Ok? ==>
      r.value.affectedOpenIssues ==
        (if answers.issuesAffected == Some(true) && answers.issues.Some?
         then Some(Text.Split(answers.issues.value, ' ')) else None)
    ensures r.Ok? && r.value.affectedOpenIssues.Some? ==>
      && |r.value.affectedOpenIssues.value| >= 1
      && Text.JoinWith(r.value.affectedOpenIssues.value, " ") == answers.issues.value
  {
    var results := NewSurveyResults();
    options := TypeOptions(types);
    var items := MenuItems(options);

    if answers.selection.None? {
      return Err(SelectFailed), options;
    }
    var selectedIndex := answers.selection.value;
    if selectedIndex >= |options| {
      return Err(SelectionOutOfRange), options;
    }
    results := results.(commitType := options[selectedIndex].0);

    results := results.(scope := NonEmpty(answers.scope));

    if answers.shortMsg.None? {
      return Err(ShortMsgFailed), options;
    }
    results := results.(shortMsg := answers.shortMsg.value);

    results := results.(longMsg := NonEmpty(answers.longMsg));

    if answers.breaking.None? {
      return Err(BreakingConfirmFailed), options;
    }
    if answers.breaking.value {
      results := results.(breakingChangesDesc := answers.breakingDesc);
    }

    if answers.issuesAffected.None? {
      return Err(IssuesConfirmFailed), options;
    }
    if answers.issuesAffected.value {
      match answers.issues {
        case Some(s) => results := results.(affectedOpenIssues := Some(IssueList(s)));
        case None => results := results.(affectedOpenIssues := None);
      }
    }
    r := Ok(results);
  }
}
