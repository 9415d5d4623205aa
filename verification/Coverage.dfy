/** Wildcard coverage of subjects by the configured stream patterns. */
module Coverage {
  import opened Text
  import opened Subjects

  ghost predicate TokenMatches(pattern: string, token: string) {
    pattern == "*" || pattern == token
  }

  /** Token by token: `*` stands for one token, a final `>` for one or more, and a `>`
      anywhere else for nothing. */
  ghost predicate TokensMatch(patterns: seq<string>, tokens: seq<string>)
    requires |patterns| >= 1
  {
    var n := |patterns| - 1;
    && (forall i :: 0 <= i < n ==> patterns[i] != ">")
    && (forall i :: 0 <= i < n && i < |tokens| ==> TokenMatches(patterns[i], tokens[i]))
    && if patterns[n] == ">" then |tokens| > n
       else |tokens| == |patterns| && TokenMatches(patterns[n], tokens[n])
  }

  ghost predicate Covers(pattern: string, subject: string) {
    pattern != "" && subject != "" && TokensMatch(Split(pattern, '.'), Split(subject, '.'))
  }

  /** The two-iterator loop; `next` counts the tokens taken from both iterators. */
  method PatternCovers(pattern: string, subject: string) returns (covered: bool)
    ensures covered <==> Covers(pattern, subject)
  {
    if pattern == "" || subject == "" {
      return false;
    }
    var subjectTokens := Split(subject, '.');
    var patternTokens := Split(pattern, '.');
    var next := 0;
    while next < |patternTokens|
      invariant next <= |patternTokens| && next <= |subjectTokens|
      invariant forall i :: 0 <= i < next ==>
                  patternTokens[i] != ">" && TokenMatches(patternTokens[i], subjectTokens[i])
    {
      var patternToken := patternTokens[next];
      if patternToken == ">" {
        return next + 1 == |patternTokens| && next < |subjectTokens|;
      } else if patternToken == "*" {
        if next == |subjectTokens| {
          return false;
        }
      } else {
        if next == |subjectTokens| || subjectTokens[next] != patternToken {
          return false;
        }
      }
      next := next + 1;
    }
    return next == |subjectTokens|;
  }

  ghost predicate SubjectCovered(configured: seq<string>, subject: string) {
    exists i :: 0 <= i < |configured| && Covers(configured[i], subject)
  }

  method IsSubjectCovered(configured: seq<string>, subject: string) returns (covered: bool)
    ensures covered <==> SubjectCovered(configured, subject)
  {
    for i := 0 to |configured|
      invariant forall j :: 0 <= j < i ==> !Covers(configured[j], subject)
    {
      var hit := PatternCovers(configured[i], subject);
      if hit {
        return true;
      }
    }
    return false;
  }

  lemma TailPattern(a: string, b: string, tokens: seq<string>)
    requires a !in {"*", ">"} && b !in {"*", ">"}
    ensures TokensMatch([a, b, ">"], tokens) <==> |tokens| > 2 && tokens[0] == a && tokens[1] == b
  {}

  /** The stream pattern `integration.evt.>` covers every event and no command. */
  lemma EventStreamCovers(e: EventCoords, c: CommandCoords)
    requires e.Valid() && c.Valid()
    ensures Covers("integration.evt.>", EventSubject(e))
    ensures !Covers("integration.evt.>", CommandSubject(c))
  {
    EventStreamTokens();
    SubjectTokens(EVT_TOKEN, e.producer, e.aggregate, e.fact, e.version);
    SubjectTokens(CMD_TOKEN, c.receiver, c.aggregate, c.verb, c.version);
    assert EventSubject(e) != "";
    hide Split, Subject, TokensMatch, Decimal;
    assert |"integration"| == 11 && |"evt"| == 3 && "evt"[0] != "cmd"[0];
    TailPattern("integration", "evt", Split(EventSubject(e), '.'));
    TailPattern("integration", "evt", Split(CommandSubject(c), '.'));
  }

  lemma EventStreamTokens()
    ensures Split("integration.evt.>", '.') == ["integration", "evt", ">"]
  {
    hide Split;
    SplitWhole(">", '.');
    SplitDotted("evt", ">");
    SplitDotted("integration", Dotted("evt", ">"));
    assert Dotted("integration", Dotted("evt", ">")) == "integration.evt.>";
  }

  /** A pattern of six tokens none of which is a wildcard covers itself and nothing else. */
  lemma LiteralPattern(token: string, a: string, b: string, c: string, version: U8, subject: string)
    requires token in {CMD_TOKEN, EVT_TOKEN} && ValidCoord(a) && ValidCoord(b) && ValidCoord(c)
    ensures Covers(Subject(token, a, b, c, version), subject) <==> subject == Subject(token, a, b, c, version)
  {
    SubjectTokens(token, a, b, c, version);
    var pattern := Subject(token, a, b, c, version);
    hide Subject, Decimal;
    var patterns, tokens := Split(pattern, '.'), Split(subject, '.');
    forall i | 0 <= i < 6
      ensures patterns[i] != "*" && patterns[i] != ">"
    {
      assert patterns[i] != "" && patterns[i][0] != '*' && patterns[i][0] != '>';
    }
    if Covers(pattern, subject) {
      forall i | 0 <= i < 6
        ensures patterns[i] == tokens[i]
      {
        assert TokenMatches(patterns[i], tokens[i]);
      }
      assert patterns == tokens;
      JoinOfSplit(subject, '.');
      JoinOfSplit(pattern, '.');
    }
  }

  /** A rendered coordinate used as a pattern covers itself and nothing else, so a list
      that contains it covers it. */
  lemma LiteralCoversItself(e: EventCoords, c: CommandCoords, subject: string)
    requires e.Valid() && c.Valid()
    ensures Covers(EventSubject(e), subject) <==> subject == EventSubject(e)
    ensures Covers(CommandSubject(c), subject) <==> subject == CommandSubject(c)
  {
    hide Covers, Subject;
    LiteralPattern(EVT_TOKEN, e.producer, e.aggregate, e.fact, e.version, subject);
    LiteralPattern(CMD_TOKEN, c.receiver, c.aggregate, c.verb, c.version, subject);
  }
}
