/** `src/harness/evaluate.rs`: from a validator agent's run to the evaluation of an attempt. Whether
    free text reads as a broken browser is decided by regular expressions, which are handed in. */
module Verdict {
  import opened Wrappers
  import opened Text
  import opened Findings
  import Evaluate

  datatype Issue = Issue(id: string, assertion: Option<string>, severity: string, route: Option<string>,
                         message: string, evidence: Option<string>)

  datatype Verdict = Verdict(passed: bool, summary: string, issues: seq<Issue>)

  datatype Evaluation = Evaluation(passed: bool, verdict: Option<Verdict>, findings: seq<Finding>,
                                   infrastructure: bool)

  /** How the validator agent ended. */
  datatype ValidatorRun =
    | Misconfigured(message: string)
    | Broken(message: string)
    | Exited(attempt: nat, message: string, output: string)
    | Answered(stdout: string)

  datatype Reader = Reader(resultOf: string -> Option<string>, parse: string -> Option<Verdict>,
                           saysInfra: Evaluation -> bool)

  // ---- findings ---------------------------------------------------------------------------------

  function TruncateDetails(value: string): string {
    var trimmed := Trim(value);
    if |trimmed| <= 1200 then trimmed else trimmed[..1200] + "..."
  }

  function FindingFromMessage(id: string, message: string, details: string): Finding {
    Finding(id, Eval, message, if Trim(details) == [] then None else Some(TruncateDetails(details)), None)
  }

  function Suffix(open: string, value: Option<string>, close: string): string {
    if value.Some? then open + value.value + close else ""
  }

  function IssueFinding(issue: Issue): Finding {
    Finding("eval:" + issue.id, Eval,
            issue.severity + Suffix(" [", issue.assertion, "]") + Suffix(" (", issue.route, ")") + ": "
            + issue.message,
            issue.evidence, None)
  }

  function IssueFindings(issues: seq<Issue>): (r: seq<Finding>)
    ensures |r| == |issues| && forall i | 0 <= i < |r| :: r[i] == IssueFinding(issues[i])
  {
    seq(|issues|, i requires 0 <= i < |issues| => IssueFinding(issues[i]))
  }

  /** `verdict_findings`: a verdict that contradicts itself is a finding too. */
  function VerdictFindings(verdict: Verdict): seq<Finding> {
    var findings := IssueFindings(verdict.issues);
    if !verdict.passed && findings == [] then
      [FindingFromMessage("validator-empty-issues", "Validator reported failure without listing issues.",
                          verdict.summary)]
    else if verdict.passed && findings != [] then
      [FindingFromMessage("validator-inconsistent", "Validator reported pass=true but listed issues.",
                          verdict.summary)] + findings
    else findings
  }

  // ---- whose fault it is ------------------------------------------------------------------------

  const INFRA_IDS := ["validator-config", "validator-runtime", "validator-output-unparseable",
                      "validator-empty-issues"]
  const INFRA_STEM := "validator-exit:"

  /** `is_explicit_infra_id`. */
  predicate IsExplicitInfraId(id: string) {
    id in INFRA_IDS || StartsWith(id, INFRA_STEM)
  }

  /** `detect_infrastructure_failure`, without its wording. */
  predicate IsInfrastructureFailure(e: Evaluation, saysInfra: Evaluation -> bool) {
    !e.passed && ((exists i | 0 <= i < |e.findings| :: IsExplicitInfraId(e.findings[i].id)) || saysInfra(e))
  }

  function Recategorised(findings: seq<Finding>): (r: seq<Finding>)
    ensures |r| == |findings|
    ensures forall i | 0 <= i < |r| ::
              r[i] == if findings[i].category == Eval then findings[i].(category := EvalInfra) else findings[i]
  {
    seq(|findings|, i requires 0 <= i < |findings| =>
      if findings[i].category == Eval then findings[i].(category := EvalInfra) else findings[i])
  }

  /** `annotate_infrastructure_failure`. */
  function Annotate(e: Evaluation, saysInfra: Evaluation -> bool): Evaluation {
    if IsInfrastructureFailure(e, saysInfra) then
      e.(infrastructure := true, findings := Recategorised(e.findings))
    else e
  }

  function Failure(finding: Finding): Evaluation {
    Evaluation(false, None, [finding], false)
  }

  /** `run`, from the agent's exit on, before the failure is classified. */
  function Graded(ran: ValidatorRun, reader: Reader): Evaluation {
    match ran
    case Misconfigured(message) => Failure(FindingFromMessage("validator-config", message, ""))
    case Broken(message) => Failure(FindingFromMessage("validator-runtime", message, ""))
    case Exited(attempt, message, output) =>
      Failure(FindingFromMessage(INFRA_STEM + Decimal(attempt), message, output))
    case Answered(stdout) =>
      match Evaluate.ParseVerdict(stdout, reader.resultOf, reader.parse)
      case None => Failure(FindingFromMessage("validator-output-unparseable",
                                              "Validator agent did not return a parseable JSON verdict.",
                                              stdout))
      case Some(verdict) =>
        var findings := VerdictFindings(verdict);
        Evaluation(verdict.passed && verdict.issues == [] && findings == [], Some(verdict), findings, false)
  }

  function Evaluated(ran: ValidatorRun, reader: Reader): Evaluation {
    Annotate(Graded(ran, reader), reader.saysInfra)
  }

  /** The verdict the run gave, when it gave one. */
  function VerdictOf(ran: ValidatorRun, reader: Reader): Option<Verdict> {
    if ran.Answered? then Evaluate.ParseVerdict(ran.stdout, reader.resultOf, reader.parse) else None
  }

  /** An evaluation passes exactly when the agent gave a verdict that passes and lists nothing, and
      exactly then it has no findings; every finding of a failed one is `eval`, or every one is
      `eval-infra`; a run without a verdict, or one that fails without a reason, is never the app's
      fault, whatever the text says. */
  lemma EvaluationIsHonest(ran: ValidatorRun, reader: Reader)
    ensures var e, verdict := Evaluated(ran, reader), VerdictOf(ran, reader);
            && (e.passed <==> verdict.Some? && verdict.value.passed && verdict.value.issues == [])
            && (e.passed <==> e.findings == [])
            && (e.infrastructure ==> !e.passed)
            && (forall i | 0 <= i < |e.findings| ::
                  e.findings[i].category == if e.infrastructure then EvalInfra else Eval)
            && (verdict.None? || (!verdict.value.passed && verdict.value.issues == []) ==> e.infrastructure)
  {
    hide Evaluate.ParseVerdict, Trim, TruncateDetails;
    var verdict, graded := VerdictOf(ran, reader), Graded(ran, reader);
    if verdict.None? || (!verdict.value.passed && verdict.value.issues == []) {
      if ran.Exited? { assert (INFRA_STEM + Decimal(ran.attempt))[..|INFRA_STEM|] == INFRA_STEM; }
      assert IsExplicitInfraId(graded.findings[0].id);
    }
  }

  /** What a validator calls an issue can never pass for one of the harness's own ids: of a verdict that
      lists issues, no finding is an explicit infrastructure failure. */
  lemma IssuesAreNotExplicit(verdict: Verdict)
    requires verdict.issues != []
    ensures forall i | 0 <= i < |VerdictFindings(verdict)| ::
              !IsExplicitInfraId(VerdictFindings(verdict)[i].id)
  {
    var findings := VerdictFindings(verdict);
    forall i | 0 <= i < |findings| ensures !IsExplicitInfraId(findings[i].id) {
      if verdict.passed && i == 0 {
        assert findings[i].id == "validator-inconsistent" && findings[i].id[10] == 'i';
      } else {
        assert findings[i].id == "eval:" + verdict.issues[if verdict.passed then i - 1 else i].id;
        assert findings[i].id[0] == 'e';
      }
    }
  }

  // ---- what an evaluation says ------------------------------------------------------------------

  /** Nothing of a text that is only white space; otherwise what is between its white ends, cut after
      1200 characters. */
  ghost predicate Quotes(details: Option<string>, text: string) {
    var inner := Trim(text);
    if AllWhite(text) then details == None
    else if |inner| <= 1200 then details == Some(inner)
    else
      && details.Some? && |details.value| == 1203
      && details.value[..1200] == inner[..1200] && details.value[1200..] == "..."
  }

  /** A finding of the harness's own about the validator. */
  ghost predicate Says(f: Finding, id: string, message: string, text: string) {
    f.id == id && f.message == message && Quotes(f.details, text) && f.status == None
  }

  /** An issue as the validator described it. */
  ghost predicate Repeats(f: Finding, issue: Issue) {
    && f.id == "eval:" + issue.id && f.details == issue.evidence && f.status == None
    && f.message == match (issue.assertion, issue.route)
                    case (None, None) => issue.severity + ": " + issue.message
                    case (Some(a), None) => issue.severity + " [" + a + "]: " + issue.message
                    case (None, Some(r)) => issue.severity + " (" + r + "): " + issue.message
                    case (Some(a), Some(r)) => issue.severity + " [" + a + "] (" + r + "): " + issue.message
  }

  /** The evaluation as it was before it was classified. */
  ghost predicate Plain(graded: Evaluation, e: Evaluation) {
    && graded.passed == e.passed && graded.verdict == e.verdict && !graded.infrastructure
    && |graded.findings| == |e.findings|
    && forall i :: 0 <= i < |e.findings| ==> graded.findings[i] == e.findings[i].(category := Eval)
  }

  ghost predicate SaysOnly(e: Evaluation, id: string, message: string, text: string) {
    |e.findings| == 1 && Says(e.findings[0], id, message, text)
  }

  /** A verdict's issues in order, behind a complaint when it passed in spite of them. */
  ghost predicate Complains(e: Evaluation, verdict: Verdict) {
    var extra := if verdict.passed && verdict.issues != [] then 1 else 0;
    if !verdict.passed && verdict.issues == [] then
      SaysOnly(e, "validator-empty-issues", "Validator reported failure without listing issues.", verdict.summary)
    else
      && |e.findings| == extra + |verdict.issues|
      && (extra == 1 ==> Says(e.findings[0], "validator-inconsistent",
                              "Validator reported pass=true but listed issues.", verdict.summary))
      && forall i :: 0 <= i < |verdict.issues| ==> Repeats(e.findings[extra + i], verdict.issues[i])
  }

  lemma QuotesAre(id: string, message: string, text: string)
    ensures Says(FindingFromMessage(id, message, text), id, message, text)
  {
    BlankIsWhite(text);
    hide Trim;
  }

  lemma IssueRepeats(issue: Issue)
    ensures Repeats(IssueFinding(issue), issue) && IssueFinding(issue).category == Eval
  {
    var a := if issue.assertion.Some? then issue.assertion.value else "";
    var r := if issue.route.Some? then issue.route.value else "";
    assert " [" + a + "]" + ": " == " [" + a + "]: ";
    assert " (" + r + ")" + ": " == " (" + r + "): ";
  }

  /** What a run ends in, whatever the findings are put down to. */
  ghost predicate RunTells(ran: ValidatorRun, verdict: Option<Verdict>, e: Evaluation) {
    match ran
    case Misconfigured(message) => SaysOnly(e, "validator-config", message, "")
    case Broken(message) => SaysOnly(e, "validator-runtime", message, "")
    case Exited(attempt, message, output) => SaysOnly(e, "validator-exit:" + Decimal(attempt), message, output)
    case Answered(stdout) =>
      if verdict.Some? then Complains(e, verdict.value)
      else SaysOnly(e, "validator-output-unparseable", "Validator agent did not return a parseable JSON verdict.",
                    stdout)
  }

  lemma FailureTells(id: string, message: string, text: string)
    ensures var e := Failure(FindingFromMessage(id, message, text));
            SaysOnly(e, id, message, text) && e.findings[0].category == Eval
  {
    QuotesAre(id, message, text);
    hide Trim, Quotes;
  }

  lemma VerdictTells(verdict: Verdict, passed: bool)
    ensures var e := Evaluation(passed, Some(verdict), VerdictFindings(verdict), false);
            Complains(e, verdict) && forall i :: 0 <= i < |e.findings| ==> e.findings[i].category == Eval
  {
    hide Repeats, Says, VerdictFindings;
    if verdict.passed || verdict.issues != [] {
      IssuesTell(verdict);
    } else {
      NoneTell(verdict);
    }
  }

  lemma NoneTell(verdict: Verdict)
    requires !verdict.passed && verdict.issues == []
    ensures var findings := VerdictFindings(verdict);
            && |findings| == 1 && findings[0].category == Eval
            && Says(findings[0], "validator-empty-issues", "Validator reported failure without listing issues.",
                    verdict.summary)
  {
    hide Says, FindingFromMessage;
    SaysIt("validator-empty-issues", "Validator reported failure without listing issues.", verdict.summary);
  }

  lemma IssuesTell(verdict: Verdict)
    requires verdict.passed || verdict.issues != []
    ensures var extra, findings := if verdict.passed && verdict.issues != [] then 1 else 0, VerdictFindings(verdict);
            && |findings| == extra + |verdict.issues|
            && (extra == 1 ==> Says(findings[0], "validator-inconsistent",
                                    "Validator reported pass=true but listed issues.", verdict.summary))
            && (forall i :: 0 <= i < |verdict.issues| ==> Repeats(findings[extra + i], verdict.issues[i]))
            && forall i :: 0 <= i < |findings| ==> findings[i].category == Eval
  {
    hide Repeats, Says, FindingFromMessage, IssueFinding;
    SaysIt("validator-inconsistent", "Validator reported pass=true but listed issues.", verdict.summary);
    var issues := IssueFindings(verdict.issues);
    forall i | 0 <= i < |verdict.issues| ensures Repeats(issues[i], verdict.issues[i]) && issues[i].category == Eval {
      IssueRepeats(verdict.issues[i]);
    }
  }

  lemma SaysIt(id: string, message: string, text: string)
    ensures Says(FindingFromMessage(id, message, text), id, message, text)
    ensures FindingFromMessage(id, message, text).category == Eval
  {
    QuotesAre(id, message, text);
    hide Trim, Quotes, TruncateDetails, Says;
  }

  lemma GradedTells(ran: ValidatorRun, reader: Reader)
    ensures var graded, verdict := Graded(ran, reader), VerdictOf(ran, reader);
            && graded.verdict == verdict && !graded.infrastructure && RunTells(ran, verdict, graded)
            && (graded.passed <==> verdict.Some? && verdict.value.passed && verdict.value.issues == [])
            && forall i :: 0 <= i < |graded.findings| ==> graded.findings[i].category == Eval
  {
    hide Evaluate.ParseVerdict, FindingFromMessage, IssueFinding, SaysOnly, Complains, VerdictFindings;
    match ran
    case Misconfigured(message) => FailureTells("validator-config", message, "");
    case Broken(message) => FailureTells("validator-runtime", message, "");
    case Exited(attempt, message, output) => FailureTells("validator-exit:" + Decimal(attempt), message, output);
    case Answered(stdout) =>
      match VerdictOf(ran, reader)
      case None =>
        FailureTells("validator-output-unparseable", "Validator agent did not return a parseable JSON verdict.",
                     stdout);
      case Some(verdict) =>
        VerdictTells(verdict, Graded(ran, reader).passed);
        NoIssues(verdict);
  }

  lemma NoIssues(verdict: Verdict)
    ensures verdict.passed && verdict.issues == [] ==> VerdictFindings(verdict) == []
  {
  }

  lemma ExplicitIds(ran: ValidatorRun, reader: Reader)
    ensures var graded, verdict := Graded(ran, reader), VerdictOf(ran, reader);
            (exists i | 0 <= i < |graded.findings| :: IsExplicitInfraId(graded.findings[i].id))
            <==> verdict.None? || (!verdict.value.passed && verdict.value.issues == [])
  {
    var graded, verdict := Graded(ran, reader), VerdictOf(ran, reader);
    hide Evaluate.ParseVerdict, Trim, TruncateDetails;
    if verdict.Some? && verdict.value.issues != [] {
      IssuesAreNotExplicit(verdict.value);
    } else if verdict.Some? && verdict.value.passed {
      NoIssues(verdict.value);
    } else {
      if ran.Exited? { assert (INFRA_STEM + Decimal(ran.attempt))[..|INFRA_STEM|] == INFRA_STEM; }
      assert IsExplicitInfraId(graded.findings[0].id);
    }
  }

  lemma AnnotateTells(ran: ValidatorRun, verdict: Option<Verdict>, graded: Evaluation,
                      saysInfra: Evaluation -> bool)
    requires !graded.infrastructure && forall i :: 0 <= i < |graded.findings| ==> graded.findings[i].category == Eval
    requires RunTells(ran, verdict, graded)
    ensures Plain(graded, Annotate(graded, saysInfra)) && RunTells(ran, verdict, Annotate(graded, saysInfra))
    ensures Annotate(graded, saysInfra).infrastructure <==> IsInfrastructureFailure(graded, saysInfra)
  {
    hide Quotes, IsInfrastructureFailure;
    var e := Annotate(graded, saysInfra);
    forall i | 0 <= i < |e.findings|
      ensures e.findings[i] == graded.findings[i].(category := e.findings[i].category)
    {
    }
    hide Annotate;
  }

  /** What an evaluation holds, for every way the agent can end, and when it is put down to the validator
      rather than the app. */
  lemma EvaluationTells(ran: ValidatorRun, reader: Reader) returns (graded: Evaluation)
    ensures var e, verdict := Evaluated(ran, reader), VerdictOf(ran, reader);
            && e.verdict == verdict && Plain(graded, e) && RunTells(ran, verdict, e)
            && (e.infrastructure <==>
                  !e.passed && (verdict.None? || (!verdict.value.passed && verdict.value.issues == [])
                                || reader.saysInfra(graded)))
  {
    graded := Graded(ran, reader);
    GradedTells(ran, reader);
    ExplicitIds(ran, reader);
    hide Graded, VerdictOf, RunTells, IsExplicitInfraId, Plain;
    AnnotateTells(ran, VerdictOf(ran, reader), graded, reader.saysInfra);
    AnnotateKeeps(graded, reader.saysInfra);
    hide Annotate;
  }

  lemma AnnotateKeeps(graded: Evaluation, saysInfra: Evaluation -> bool)
    ensures var e := Annotate(graded, saysInfra); e.verdict == graded.verdict && e.passed == graded.passed
  {
  }
}
