/** The path builders of the application's routes. Each builds its path from the path of its
    parent; ids are given as the text the template renders. */
module Routes {
  import opened Js

  /** The path made of the given segments, each after a slash. */
  function Path(segments: seq<string>): string {
    Join([""] + segments, "/")
  }

  lemma {:induction false} JoinAppend(parts: seq<string>, x: string, sep: string)
    requires |parts| >= 1
    ensures Join(parts + [x], sep) == Join(parts, sep) + sep + x
    decreases |parts|
  {
    if |parts| == 1 {
      assert parts + [x] == [parts[0], x];
    } else {
      JoinAppend(parts[1..], x, sep);
      assert (parts + [x])[1..] == parts[1..] + [x];
    }
  }

  /** One more segment adds a slash and the segment. */
  lemma PathAppend(segments: seq<string>, x: string, whole: seq<string>)
    requires whole == segments + [x]
    ensures Path(whole) == Path(segments) + "/" + x
  {
    JoinAppend([""] + segments, x, "/");
    assert [""] + whole == ([""] + segments) + [x];
  }

  /** A path of one segment. */
  lemma PathOne(x: string)
    ensures Path([x]) == "/" + x
  {
    PathAppend([], x, [x]);
    assert Path([]) == Join([""], "/") == "";
  }

  /** Splitting a path at its slashes gives back its segments when none holds a slash. */
  lemma PathSegments(segments: seq<string>)
    requires forall k :: 0 <= k < |segments| ==> '/' !in segments[k]
    ensures Split(Path(segments), '/') == [""] + segments
  {
    var parts := [""] + segments;
    forall k | 0 <= k < |parts|
      ensures '/' !in parts[k]
    {
      if k > 0 { assert parts[k] == segments[k - 1]; }
    }
    SplitJoin(parts, '/');
  }

  /** Paths of segments without slashes are equal only when their segments are. */
  lemma PathInjective(a: seq<string>, b: seq<string>)
    requires forall k :: 0 <= k < |a| ==> '/' !in a[k]
    requires forall k :: 0 <= k < |b| ==> '/' !in b[k]
    requires Path(a) == Path(b)
    ensures a == b
  {
    PathSegments(a);
    PathSegments(b);
    assert a == ([""] + a)[1..] && b == ([""] + b)[1..];
  }

  function Root(): (r: string)
    ensures r == Path([""])
  {
    PathOne("");
    "/"
  }

  function Projects(): (r: string)
    ensures r == Path(["projects"])
  {
    PathOne("projects");
    "/projects"
  }

  function NewProject(): (r: string)
    ensures r == Path(["projects", "new"])
  {
    PathAppend(["projects"], "new", ["projects", "new"]);
    Projects() + "/new"
  }

  function Project(id: string): (r: string)
    ensures r == Path(["projects", id])
  {
    PathAppend(["projects"], id, ["projects", id]);
    Projects() + "/" + id
  }

  function EditProject(id: string): (r: string)
    ensures r == Path(["projects", id, "edit"])
  {
    PathAppend(["projects", id], "edit", ["projects", id, "edit"]);
    Project(id) + "/edit"
  }

  function Surveys(projectId: string): (r: string)
    ensures r == Path(["projects", projectId, "surveys"])
  {
    PathAppend(["projects", projectId], "surveys", ["projects", projectId, "surveys"]);
    Project(projectId) + "/surveys"
  }

  function Survey(projectId: string, surveyId: string): (r: string)
    ensures r == Path(["projects", projectId, "surveys", surveyId])
  {
    PathAppend(["projects", projectId, "surveys"], surveyId, ["projects", projectId, "surveys", surveyId]);
    Surveys(projectId) + "/" + surveyId
  }

  function SurveyRespondents(projectId: string, surveyId: string): (r: string)
    ensures r == Path(["projects", projectId, "surveys", surveyId, "respondents"])
  {
    PathAppend(["projects", projectId, "surveys", surveyId], "respondents", ["projects", projectId, "surveys", surveyId, "respondents"]);
    Survey(projectId, surveyId) + "/respondents"
  }

  function EditSurvey(projectId: string, surveyId: string): (r: string)
    ensures r == Path(["projects", projectId, "surveys", surveyId, "edit"])
  {
    PathAppend(["projects", projectId, "surveys", surveyId], "edit", ["projects", projectId, "surveys", surveyId, "edit"]);
    Survey(projectId, surveyId) + "/edit"
  }

  /** The path of one step of the survey wizard. */
  function WizardStep(projectId: string, surveyId: string, step: string): (r: string)
    ensures r == Path(["projects", projectId, "surveys", surveyId, "edit", step])
  {
    PathAppend(["projects", projectId, "surveys", surveyId, "edit"], step, ["projects", projectId, "surveys", surveyId, "edit", step]);
    EditSurvey(projectId, surveyId) + "/" + step
  }

  function EditSurveyQuestionnaire(projectId: string, surveyId: string): (r: string)
    ensures r == WizardStep(projectId, surveyId, "questionnaire")
  {
    EditSurvey(projectId, surveyId) + "/questionnaire"
  }

  function EditSurveyRespondents(projectId: string, surveyId: string): (r: string)
    ensures r == WizardStep(projectId, surveyId, "respondents")
  {
    EditSurvey(projectId, surveyId) + "/respondents"
  }

  function EditSurveyChannels(projectId: string, surveyId: string): (r: string)
    ensures r == WizardStep(projectId, surveyId, "channels")
  {
    EditSurvey(projectId, surveyId) + "/channels"
  }

  function EditSurveySchedule(projectId: string, surveyId: string): (r: string)
    ensures r == WizardStep(projectId, surveyId, "schedule")
  {
    EditSurvey(projectId, surveyId) + "/schedule"
  }

  function EditSurveyCutoff(projectId: string, surveyId: string): (r: string)
    ensures r == WizardStep(projectId, surveyId, "cutoff")
  {
    EditSurvey(projectId, surveyId) + "/cutoff"
  }

  function Questionnaires(projectId: string): (r: string)
    ensures r == Path(["projects", projectId, "questionnaires"])
  {
    PathAppend(["projects", projectId], "questionnaires", ["projects", projectId, "questionnaires"]);
    Project(projectId) + "/questionnaires"
  }

  function NewQuestionnaire(projectId: string): (r: string)
    ensures r == Path(["projects", projectId, "questionnaires", "new"])
  {
    PathAppend(["projects", projectId, "questionnaires"], "new", ["projects", projectId, "questionnaires", "new"]);
    Questionnaires(projectId) + "/new"
  }

  function Questionnaire(projectId: string, questionnaireId: string): (r: string)
    ensures r == Path(["projects", projectId, "questionnaires", questionnaireId])
  {
    PathAppend(["projects", projectId, "questionnaires"], questionnaireId, ["projects", projectId, "questionnaires", questionnaireId]);
    Questionnaires(projectId) + "/" + questionnaireId
  }

  function EditQuestionnaire(projectId: string, questionnaireId: string): (r: string)
    ensures r == Path(["projects", projectId, "questionnaires", questionnaireId, "edit"])
  {
    PathAppend(["projects", projectId, "questionnaires", questionnaireId], "edit", ["projects", projectId, "questionnaires", questionnaireId, "edit"]);
    Questionnaire(projectId, questionnaireId) + "/edit"
  }

  function Channels(): (r: string)
    ensures r == Path(["channels"])
  {
    PathOne("channels");
    "/channels"
  }

  /** Every path of a survey lies under the path of its project, and every wizard step under the
      survey's edit path. */
  lemma SurveyPathsUnderProject(projectId: string, surveyId: string, step: string)
    ensures Project(projectId) <= Surveys(projectId) <= Survey(projectId, surveyId)
    ensures Survey(projectId, surveyId) <= SurveyRespondents(projectId, surveyId)
    ensures Survey(projectId, surveyId) <= EditSurvey(projectId, surveyId) <= WizardStep(projectId, surveyId, step)
    ensures Project(projectId) <= Questionnaires(projectId) <= Questionnaire(projectId, surveyId)
    ensures Questionnaire(projectId, surveyId) <= EditQuestionnaire(projectId, surveyId)
  {
    assert Surveys(projectId) == Project(projectId) + "/surveys";
    assert Survey(projectId, surveyId) == Surveys(projectId) + ("/" + surveyId);
    assert SurveyRespondents(projectId, surveyId) == Survey(projectId, surveyId) + "/respondents";
    assert EditSurvey(projectId, surveyId) == Survey(projectId, surveyId) + "/edit";
    assert WizardStep(projectId, surveyId, step) == EditSurvey(projectId, surveyId) + ("/" + step);
    assert Questionnaires(projectId) == Project(projectId) + "/questionnaires";
    assert Questionnaire(projectId, surveyId) == Questionnaires(projectId) + ("/" + surveyId);
    assert EditQuestionnaire(projectId, surveyId) == Questionnaire(projectId, surveyId) + "/edit";
  }

  /** A survey's path names its project and itself: ids without slashes are read back from it, so
      different surveys have different paths. The wizard step is read back the same way. */
  lemma SurveyPathIdentifies(projectId: string, surveyId: string, step: string)
    requires '/' !in projectId && '/' !in surveyId && '/' !in step
    ensures Split(Survey(projectId, surveyId), '/') == ["", "projects", projectId, "surveys", surveyId]
    ensures Split(WizardStep(projectId, surveyId, step), '/') == ["", "projects", projectId, "surveys", surveyId, "edit", step]
  {
    PathSegments(["projects", projectId, "surveys", surveyId]);
    PathSegments(["projects", projectId, "surveys", surveyId, "edit", step]);
  }

  /** Two questionnaire paths are equal exactly when they name the same project and the same
      questionnaire: different questionnaires, or the same questionnaire id in different projects,
      have different paths. */
  lemma QuestionnairePathsDiffer(p1: string, q1: string, p2: string, q2: string)
    requires '/' !in p1 && '/' !in q1 && '/' !in p2 && '/' !in q2
    ensures Questionnaire(p1, q1) == Questionnaire(p2, q2) <==> p1 == p2 && q1 == q2
    ensures EditQuestionnaire(p1, q1) == EditQuestionnaire(p2, q2) <==> p1 == p2 && q1 == q2
  {
    var a, b := ["projects", p1, "questionnaires", q1], ["projects", p2, "questionnaires", q2];
    if Questionnaire(p1, q1) == Questionnaire(p2, q2) {
      PathInjective(a, b);
      assert a[1] == b[1] && a[3] == b[3];
    }
    if EditQuestionnaire(p1, q1) == EditQuestionnaire(p2, q2) {
      var ae, be := ["projects", p1, "questionnaires", q1, "edit"], ["projects", p2, "questionnaires", q2, "edit"];
      PathInjective(ae, be);
      assert ae[1] == be[1] && ae[3] == be[3];
    }
  }

  /** The new-project path is also the path of a project whose id is `new`: only the order of the
      route declarations tells them apart. */
  lemma NewProjectIsProjectNew()
    ensures NewProject() == Project("new")
    ensures NewQuestionnaire("1") == Questionnaire("1", "new")
  {
  }
}
