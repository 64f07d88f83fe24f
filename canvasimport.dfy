/**
  The boundary logic of the Canvas LMS import button: the input guard, the
  detection of the Canvas base URL from the token field (which may carry
  `base|token`), the "list assignments" request it builds
  (`GET {base}/api/v1/courses/{courseId}/assignments` with a bearer token),
  and the mapping of returned assignments to task rows.
 */
module CanvasImport {
  import opened Wrappers
  import opened JsText

  const DefaultCanvasBase: string := "https://canvas.instructure.com"
  const ExternalSource: string := "canvas"

  /** What `detectCanvasBase` returns, with what the token field holds afterwards. */
  datatype Detection = Detection(base: string, tokenField: string)

  /**
    `detectCanvasBase()`: with a `|` in the trimmed token field, the base is the
    first `|`-piece without one trailing `/`, and the field is overwritten with
    the second piece; otherwise the Canvas Cloud host, and the field is kept.
   */
  function DetectBase(tokenField: string): (d: Detection)
    ensures '|' !in Trim(tokenField) ==> d == Detection(DefaultCanvasBase, tokenField)
    ensures '|' in Trim(tokenField) ==> '|' !in d.tokenField
  {
    var tok := Trim(tokenField);
    if '|' in tok then
      SplitMany(tok, '|');
      var parts := Split(tok, '|');
      Detection(StripTrailingSlash(parts[0]), parts[1])
    else
      Detection(DefaultCanvasBase, tokenField)
  }

  /**
    With a `|`, the base is the text before the first `|` less one trailing
    `/`, and the new field value is the text between the first and the second
    `|` (or the end); without one, the default host and the field unchanged.
   */
  lemma DetectBaseSpec(tokenField: string)
    ensures var tok := Trim(tokenField); var d := DetectBase(tokenField);
      if '|' in tok then
        var h := IndexOf(tok, '|');
        d.base == StripTrailingSlash(tok[..h]) &&
        '|' !in d.tokenField &&
        h + 1 + |d.tokenField| <= |tok| &&
        d.tokenField == tok[h + 1..h + 1 + |d.tokenField|] &&
        (h + 1 + |d.tokenField| == |tok| || tok[h + 1 + |d.tokenField|] == '|')
      else
        d == Detection(DefaultCanvasBase, tokenField)
  {
    var tok := Trim(tokenField);
    if '|' in tok {
      var h := IndexOf(tok, '|');
      var rest := tok[h + 1..];
      SplitMany(tok, '|');
      SplitAtFirst(tok, '|');
      SplitHead(rest, '|');
      var p := Split(tok, '|');
      var q := Split(rest, '|')[0];
      assert p[0] == tok[..h] && p[1] == q;
      assert DetectBase(tokenField) == Detection(StripTrailingSlash(p[0]), p[1]);
      assert rest[..|q|] == tok[h + 1..h + 1 + |q|];
    }
  }

  /** How a click on the import button ends before any network traffic. */
  datatype ImportStart =
    | MissingCredentials                       // alert: token and course id required
    | NoBaseUrl                                // alert: base URL could not be detected
    | Fetch(url: string, authorization: string)

  /** The outcome of a click and the token field's value afterwards. */
  datatype ImportPlan = ImportPlan(outcome: ImportStart, tokenField: string)

  function AssignmentsUrl(base: string, courseId: string): (u: string)
    ensures |u| == |base| + |courseId| + 28
    ensures u[..|base|] == base && u[|base| + 16..|base| + 16 + |courseId|] == courseId
    ensures u[|base|..|base| + 16] == "/api/v1/courses/" && u[|base| + 16 + |courseId|..] == "/assignments"
  {
    base + "/api/v1/courses/" + courseId + "/assignments"
  }

  /** For a given base, the request URL determines the course id it names. */
  lemma AssignmentsUrlInjective(base: string, c1: string, c2: string)
    requires AssignmentsUrl(base, c1) == AssignmentsUrl(base, c2)
    ensures c1 == c2
  {
    var u := AssignmentsUrl(base, c1);
    var pre := base + "/api/v1/courses/";
    assert |c1| == |c2|;
    assert c1 == u[|pre|..|pre| + |c1|];
    assert c2 == u[|pre|..|pre| + |c2|];
  }

  /**
    The click handler up to the request: trim both fields, stop when either is
    empty, detect the base (which may rewrite the token field), stop when the
    base is empty, else build the URL. The header uses the token read first,
    before any rewrite.
   */
  function PlanImport(tokenField: string, courseField: string): (p: ImportPlan)
    ensures p.outcome.Fetch? ==>
      Trim(tokenField) != "" && Trim(courseField) != "" && DetectBase(tokenField).base != ""
    ensures p.outcome == MissingCredentials ==> p.tokenField == tokenField
  {
    var token := Trim(tokenField);
    var courseId := Trim(courseField);
    if token == "" || courseId == "" then
      ImportPlan(MissingCredentials, tokenField)
    else
      var d := DetectBase(tokenField);
      if d.base == "" then ImportPlan(NoBaseUrl, d.tokenField)
      else ImportPlan(Fetch(AssignmentsUrl(d.base, courseId), "Bearer " + token), d.tokenField)
  }

  /**
    No request is built unless the trimmed token and course id and the
    detected base are all non-empty; the field is left alone when the guard
    fails; a request goes to the detected base's assignments endpoint for the
    trimmed course id, and its bearer token is the whole trimmed field as read
    before detection, `base|` prefix included when there was one.
   */
  lemma ImportGuard(tokenField: string, courseField: string)
    ensures var p := PlanImport(tokenField, courseField);
      var token := Trim(tokenField); var courseId := Trim(courseField);
      (p.outcome.Fetch? <==> token != "" && courseId != "" && DetectBase(tokenField).base != "") &&
      (p.outcome == MissingCredentials <==> token == "" || courseId == "") &&
      (p.outcome == MissingCredentials ==> p.tokenField == tokenField) &&
      (p.outcome != MissingCredentials ==> p.tokenField == DetectBase(tokenField).tokenField) &&
      (p.outcome.Fetch? ==>
        p.outcome.url == DetectBase(tokenField).base + "/api/v1/courses/" + courseId + "/assignments" &&
        p.outcome.authorization == "Bearer " + token)
  {
  }

  /**
    When the token field carries `base|token`, the request's bearer token is
    the whole trimmed field, bar included, and so differs from the token the
    field is rewritten to, which never contains a bar.
   */
  lemma HeaderKeepsWholeField(tokenField: string, courseField: string)
    requires '|' in Trim(tokenField)
    requires PlanImport(tokenField, courseField).outcome.Fetch?
    ensures var p := PlanImport(tokenField, courseField);
      p.outcome.authorization == "Bearer " + Trim(tokenField) &&
      '|' in p.outcome.authorization && '|' !in p.tokenField &&
      p.outcome.authorization != "Bearer " + p.tokenField
  {
    var p := PlanImport(tokenField, courseField);
    var tok := Trim(tokenField);
    SplitMany(tok, '|');
    var i :| 0 <= i < |tok| && tok[i] == '|';
    assert p.outcome.authorization[7 + i] == '|';
  }

  /**
    When the guard passes but the text before the first `|` is empty or a
    lone `/`, no base is detected and the click stops, yet the token field
    has already been rewritten by detection.
   */
  lemma EmptyBaseStillRewritesField(tokenField: string, courseField: string)
    requires Trim(tokenField) != "" && Trim(courseField) != ""
    requires '|' in Trim(tokenField)
    requires var tok := Trim(tokenField); var h := IndexOf(tok, '|');
      tok[..h] == "" || tok[..h] == "/"
    ensures PlanImport(tokenField, courseField) ==
      ImportPlan(NoBaseUrl, DetectBase(tokenField).tokenField)
  {
    DetectBaseSpec(tokenField);
  }

  /** One element of the JSON array returned by the assignments endpoint. */
  datatype Assignment = Assignment(id: int, name: string, description: Option<string>, dueAt: Option<string>)

  /** The row inserted into `tasks` for an imported assignment. */
  datatype TaskPayload = TaskPayload(title: string, description: string, dueAt: Option<string>,
                                     externalId: int, externalSource: string)

  function ToPayload(a: Assignment): (p: TaskPayload)
    ensures p.externalSource == "canvas" && p.externalId == a.id && p.dueAt == a.dueAt
    ensures p.title == a.name
    ensures a.description.None? ==> p.description == ""
    ensures a.description.Some? ==> p.description == a.description.value
  {
    TaskPayload(a.name, if a.description.Some? then a.description.value else "", a.dueAt, a.id, ExternalSource)
  }

  /** `assignments.map(a => ...)`. */
  function ToPayloads(assignments: seq<Assignment>): (r: seq<TaskPayload>)
    ensures |r| == |assignments|
  {
    if assignments == [] then [] else [ToPayload(assignments[0])] + ToPayloads(assignments[1..])
  }

  /**
    The mapping keeps length and order, and each payload takes its title from
    the name, its description from the description or "", its due time
    unchanged, the assignment id as external id, and "canvas" as source.
   */
  lemma {:induction false} ToPayloadsPointwise(assignments: seq<Assignment>)
    ensures var r := ToPayloads(assignments);
      |r| == |assignments| &&
      forall k :: 0 <= k < |r| ==>
        r[k].title == assignments[k].name &&
        (assignments[k].description.Some? ==> r[k].description == assignments[k].description.value) &&
        (assignments[k].description.None? ==> r[k].description == "") &&
        r[k].dueAt == assignments[k].dueAt &&
        r[k].externalId == assignments[k].id &&
        r[k].externalSource == "canvas"
  {
    if assignments != [] {
      ToPayloadsPointwise(assignments[1..]);
    }
  }

  /** The mapping works element by element: it distributes over concatenation. */
  lemma {:induction false} ToPayloadsAppend(a: seq<Assignment>, b: seq<Assignment>)
    ensures ToPayloads(a + b) == ToPayloads(a) + ToPayloads(b)
  {
    if a == [] {
      assert a + b == b;
    } else {
      assert (a + b)[1..] == a[1..] + b;
      ToPayloadsAppend(a[1..], b);
    }
  }

  /** The Canvas token and course id inputs. */
  class CanvasImportForm {
    var tokenField: string
    var courseField: string

    constructor(token: string, course: string)
      ensures tokenField == token && courseField == course
    {
      tokenField := token;
      courseField := course;
    }

    /** `detectCanvasBase()`, which may overwrite the token field. */
    method DetectCanvasBase() returns (base: string)
      modifies this`tokenField
      ensures base == DetectBase(old(tokenField)).base
      ensures tokenField == DetectBase(old(tokenField)).tokenField
    {
      var tok := Trim(tokenField);
      if '|' in tok {
        SplitMany(tok, '|');
        var parts := Split(tok, '|');
        tokenField := parts[1];
        base := StripTrailingSlash(parts[0]);
      } else {
        base := DefaultCanvasBase;
      }
    }

    /** The import button's click handler up to the `fetch`. */
    method StartImport() returns (outcome: ImportStart)
      modifies this`tokenField
      ensures outcome == PlanImport(old(tokenField), courseField).outcome
      ensures tokenField == PlanImport(old(tokenField), courseField).tokenField
    {
      var token := Trim(tokenField);
      var courseId := Trim(courseField);
      if token == "" || courseId == "" {
        return MissingCredentials;
      }
      var base := DetectCanvasBase();
      if base == "" {
        return NoBaseUrl;
      }
      outcome := Fetch(AssignmentsUrl(base, courseId), "Bearer " + token);
    }
  }
}
