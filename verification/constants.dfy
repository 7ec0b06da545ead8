/** The client's lookup tables (`client/src/utils/constants.js`): the
    editor languages, the extension table and the interview durations. */
module Constants {
  import opened Wrappers

  /** `{ value, label, ext }`; the label is `displayName`, `label` being a keyword here. */
  datatype Language = Language(value: string, displayName: string, ext: string)

  const Languages: seq<Language> := [
    Language("javascript", "JavaScript", "js"),
    Language("python", "Python", "py"),
    Language("java", "Java", "java"),
    Language("cpp", "C++", "cpp"),
    Language("c", "C", "c"),
    Language("csharp", "C#", "cs"),
    Language("go", "Go", "go"),
    Language("rust", "Rust", "rs"),
    Language("typescript", "TypeScript", "ts"),
    Language("ruby", "Ruby", "rb"),
    Language("php", "PHP", "php")]

  /** `EXT_TO_LANGUAGE`: file extension to editor language. */
  const ExtToLanguage: map<string, string> := map[
    "js" := "javascript", "jsx" := "javascript", "ts" := "typescript", "tsx" := "typescript",
    "py" := "python", "java" := "java", "cpp" := "cpp", "c" := "c", "cs" := "csharp",
    "go" := "go", "rs" := "rust", "rb" := "ruby", "php" := "php", "html" := "html",
    "css" := "css", "json" := "json", "md" := "markdown"]

  /** `EXT_TO_LANGUAGE[ext]`, `undefined` being `None`. */
  function LanguageOfExt(ext: string): (r: Option<string>)
    ensures r.Some? <==> ext in ExtToLanguage
    ensures r.Some? ==> r.value == ExtToLanguage[ext] && r.value != ""
  {
    if ext in ExtToLanguage then Some(ExtToLanguage[ext]) else None
  }

  /** Every editor language's extension leads back to that language, and
      the React flavours of JavaScript and TypeScript go to their base
      language. */
  lemma LanguagesRoundTrip()
    ensures forall i :: 0 <= i < |Languages| ==> LanguageOfExt(Languages[i].ext) == Some(Languages[i].value)
    ensures LanguageOfExt("jsx") == Some("javascript") && LanguageOfExt("tsx") == Some("typescript")
  {
    FirstLanguagesRoundTrip();
    LastLanguagesRoundTrip();
  }

  lemma FirstLanguagesRoundTrip()
    ensures forall i :: 0 <= i < 6 ==> LanguageOfExt(Languages[i].ext) == Some(Languages[i].value)
  {
    assert LanguageOfExt("js") == Some("javascript");
    assert LanguageOfExt("py") == Some("python");
    assert LanguageOfExt("java") == Some("java");
    assert LanguageOfExt("cpp") == Some("cpp");
    assert LanguageOfExt("c") == Some("c");
    assert LanguageOfExt("cs") == Some("csharp");
  }

  lemma LastLanguagesRoundTrip()
    ensures forall i :: 6 <= i < |Languages| ==> LanguageOfExt(Languages[i].ext) == Some(Languages[i].value)
  {
    assert LanguageOfExt("go") == Some("go");
    assert LanguageOfExt("rs") == Some("rust");
    assert LanguageOfExt("ts") == Some("typescript");
    assert LanguageOfExt("rb") == Some("ruby");
    assert LanguageOfExt("php") == Some("php");
  }

  /** No two editor languages share a value or an extension. */
  lemma LanguagesDistinct()
    ensures forall i, j :: 0 <= i < j < |Languages| ==>
      Languages[i].value != Languages[j].value && Languages[i].ext != Languages[j].ext
  {
  }

  /** `INTERVIEW_DIFFICULTIES` */
  const Difficulties: seq<string> := ["easy", "medium", "hard"]

  /** `INTERVIEW_DURATIONS[difficulty]`, in seconds. */
  function InterviewDuration(difficulty: string): (r: Option<nat>)
    ensures r.Some? <==> difficulty in Difficulties
    ensures difficulty == "easy" ==> r == Some(15 * 60)
    ensures difficulty == "medium" ==> r == Some(30 * 60)
    ensures difficulty == "hard" ==> r == Some(45 * 60)
  {
    if difficulty == "easy" then Some(900)
    else if difficulty == "medium" then Some(1800)
    else if difficulty == "hard" then Some(2700)
    else None
  }

  /** Every difficulty of the list has a duration, and a harder interview
      lasts strictly longer. */
  lemma DurationsIncrease()
    ensures forall d :: d in Difficulties ==> InterviewDuration(d).Some?
    ensures InterviewDuration("easy").value < InterviewDuration("medium").value < InterviewDuration("hard").value
  {
  }
}
