/**
 * The request-body schema for a score submission
 * (src/validators/scoreValidator.js): an object whose `game` is a string
 * of 1 to 50 characters from [a-zA-Z0-9_-] and whose `score` is an
 * integer number that is at least 0.
 *
 * Parsing follows the schema library's rules: a field of the wrong type
 * (or missing) yields one type issue and no further checks for it; a field
 * of the right type runs all of its checks and reports every one that
 * fails, with the message the schema gives it.
 */
module ScoreValidator {
  import opened Wrappers

  /** A decoded JSON value; numbers are JavaScript numbers, here exact reals. */
  datatype Json =
    | JNull
    | JBool(b: bool)
    | JNumber(n: real)
    | JString(s: string)
    | JArray(items: seq<Json>)
    | JObject(fields: map<string, Json>)

  /** A validation issue: a wrong or missing type at `path`, or a failed check with its message. */
  datatype Issue = InvalidType(path: string) | Failed(path: string, message: string)

  /** The parsed body: exactly the two fields of the schema. */
  datatype SubmitScoreBody = SubmitScoreBody(game: string, score: int)

  const GameRequired: string := "Game name is required"
  const GameTooLong: string := "Game name must be at most 50 characters"
  const GameCharset: string := "Game name can only contain letters, numbers, hyphens, and underscores"
  const ScoreNotInteger: string := "Score must be an integer"
  const ScoreNegative: string := "Score must be positive"

  const MaxGameLength: nat := 50

  /** One character of the class [a-zA-Z0-9_-]. */
  predicate GameChar(c: char)
  {
    ('a' <= c <= 'z') || ('A' <= c <= 'Z') || ('0' <= c <= '9') || c == '_' || c == '-'
  }

  /** The pattern ^[a-zA-Z0-9_-]+$: at least one character, all from the class. */
  predicate MatchesGamePattern(s: string)
  {
    |s| >= 1 && forall i :: 0 <= i < |s| ==> GameChar(s[i])
  }

  /**
   * The length of `s` as JavaScript counts it, in UTF-16 code units: a
   * character outside the Basic Multilingual Plane takes two.
   */
  function Utf16Length(s: string): (n: nat)
    ensures n >= |s|
    ensures n == 0 <==> |s| == 0
  {
    if |s| == 0 then 0 else (if s[0] as int >= 0x1_0000 then 2 else 1) + Utf16Length(s[1..])
  }

  /** Within the Basic Multilingual Plane the UTF-16 length is the character count. */
  lemma {:induction false} BmpUtf16Length(s: string)
    requires forall i :: 0 <= i < |s| ==> s[i] as int < 0x1_0000
    ensures Utf16Length(s) == |s|
  {
    if |s| > 0 {
      BmpUtf16Length(s[1..]);
    }
  }

  /** Outside the Basic Multilingual Plane every character counts twice. */
  lemma {:induction false} AstralUtf16Length(s: string)
    requires forall i :: 0 <= i < |s| ==> s[i] as int >= 0x1_0000
    ensures Utf16Length(s) == 2 * |s|
  {
    if |s| > 0 {
      AstralUtf16Length(s[1..]);
    }
  }

  /** A name matching the pattern is ASCII, so both lengths agree. */
  lemma PatternLengthIsCharCount(s: string)
    requires MatchesGamePattern(s)
    ensures Utf16Length(s) == |s|
  {
    BmpUtf16Length(s);
  }

  predicate IsInteger(n: real)
  {
    n.Floor as real == n
  }

  /** The issues of the `game` field, in the order of the schema's checks. */
  function GameIssues(v: Option<Json>): seq<Issue>
  {
    match v
    case Some(JString(s)) =>
      (if Utf16Length(s) < 1 then [Failed("game", GameRequired)] else [])
      + (if Utf16Length(s) > MaxGameLength then [Failed("game", GameTooLong)] else [])
      + (if !MatchesGamePattern(s) then [Failed("game", GameCharset)] else [])
    case _ => [InvalidType("game")]
  }

  /** The issues of the `score` field, in the order of the schema's checks. */
  function ScoreIssues(v: Option<Json>): seq<Issue>
  {
    match v
    case Some(JNumber(n)) =>
      (if !IsInteger(n) then [Failed("score", ScoreNotInteger)] else [])
      + (if n < 0.0 then [Failed("score", ScoreNegative)] else [])
    case _ => [InvalidType("score")]
  }

  function Field(fields: map<string, Json>, name: string): Option<Json>
  {
    if name in fields then Some(fields[name]) else None
  }

  /** What the schema accepts, stated field by field. */
  predicate Acceptable(body: Json)
  {
    && body.JObject?
    && Field(body.fields, "game").Some? && Field(body.fields, "game").value.JString?
    && 1 <= Utf16Length(Field(body.fields, "game").value.s) <= MaxGameLength
    && MatchesGamePattern(Field(body.fields, "game").value.s)
    && Field(body.fields, "score").Some? && Field(body.fields, "score").value.JNumber?
    && IsInteger(Field(body.fields, "score").value.n)
    && Field(body.fields, "score").value.n >= 0.0
  }

  /**
   * submitScoreSchema.parse: the body's `game` and `score`, unchanged, when
   * the body is acceptable; otherwise all issues found.
   */
  function Parse(body: Json): (r: Result<SubmitScoreBody, seq<Issue>>)
    ensures r.Success? <==> Acceptable(body)
    ensures r.Success? ==> JString(r.value.game) == body.fields["game"]
                           && JNumber(r.value.score as real) == body.fields["score"]
    ensures r.Failure? ==> |r.error| > 0
  {
    match body
    case JObject(fields) =>
      var issues := GameIssues(Field(fields, "game")) + ScoreIssues(Field(fields, "score"));
      if |issues| == 0 then Success(SubmitScoreBody(fields["game"].s, fields["score"].n.Floor))
      else Failure(issues)
    case _ => Failure([InvalidType("")])
  }

  /**
   * Zero is accepted although the message speaks of a positive score, and
   * a negative or fractional score is refused with its message.
   */
  lemma ScoreBoundaries(game: string)
    requires MatchesGamePattern(game) && |game| <= MaxGameLength
    ensures Parse(JObject(map["game" := JString(game), "score" := JNumber(0.0)])) == Success(SubmitScoreBody(game, 0))
    ensures Parse(JObject(map["game" := JString(game), "score" := JNumber(-1.0)])) == Failure([Failed("score", ScoreNegative)])
    ensures Parse(JObject(map["game" := JString(game), "score" := JNumber(2.5)])) == Failure([Failed("score", ScoreNotInteger)])
  {
    PatternLengthIsCharCount(game);
    assert GameIssues(Some(JString(game))) == [];
    assert (0.0).Floor == 0;
    assert (2.5).Floor == 2;
    assert (-1.0).Floor == -1;
    assert ScoreIssues(Some(JNumber(-1.0))) == [Failed("score", ScoreNegative)];
    var frac := map["game" := JString(game), "score" := JNumber(2.5)];
    assert Field(frac, "game") == Some(JString(game));
    assert Field(frac, "score") == Some(JNumber(2.5));
    assert ScoreIssues(Some(JNumber(2.5))) == [Failed("score", ScoreNotInteger)];
    assert GameIssues(Field(frac, "game")) + ScoreIssues(Field(frac, "score")) == [Failed("score", ScoreNotInteger)];
    assert Parse(JObject(frac)) == Failure(GameIssues(Field(frac, "game")) + ScoreIssues(Field(frac, "score")));
  }

  /**
   * Game-name boundaries: the empty name fails both the length and the
   * pattern checks, a name of 51 allowed characters fails only the length
   * check, a name with a space fails only the pattern check, and a number
   * is a type issue.
   */
  lemma GameBoundaries()
    ensures GameIssues(Some(JString(""))) == [Failed("game", GameRequired), Failed("game", GameCharset)]
    ensures GameIssues(Some(JString(seq(51, _ => 'a')))) == [Failed("game", GameTooLong)]
    ensures GameIssues(Some(JString("a b"))) == [Failed("game", GameCharset)]
    ensures GameIssues(Some(JNumber(1.0))) == [InvalidType("game")]
  {
    var long := seq(51, _ => 'a');
    BmpUtf16Length(long);
    assert MatchesGamePattern(long);
    BmpUtf16Length("a b");
    assert !GameChar("a b"[1]);
  }

  /**
   * 26 emoji are 52 UTF-16 units, so they fail the length check as well as
   * the pattern check.
   */
  lemma AstralNameTooLong()
    ensures GameIssues(Some(JString(seq(26, _ => '\U{1F600}')))) == [Failed("game", GameTooLong), Failed("game", GameCharset)]
  {
    var emoji := seq(26, _ => '\U{1F600}');
    AstralUtf16Length(emoji);
    assert Utf16Length(emoji) == 52;
    assert !GameChar(emoji[0]);
  }
}
