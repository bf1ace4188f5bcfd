/** Tracker query strings: the OR-of-projects clause, the quoting helper and the query
    behind the drill-down issues link (the text before it is URL-encoded). */
module QueryBuilder {
  import opened Wrappers
  import opened Strings
  import opened Dates
  import opened PeriodUtils

  /** `project:{P}`. */
  function ProjectTerm(p: string): string {
    "project:{" + p + "}"
  }

  /** The comprehension `[f"project:{{{p}}}" for p in projects if p]`. */
  function ProjectTerms(projects: seq<string>): (r: seq<string>)
    ensures |r| <= |projects|
  {
    if projects == [] then []
    else (if projects[0] == [] then [] else [ProjectTerm(projects[0])]) + ProjectTerms(projects[1..])
  }

  /** The codes that produce a term: the non-empty ones, in input order. */
  function NonEmptyCodes(projects: seq<string>): (r: seq<string>)
    ensures forall i :: 0 <= i < |r| ==> r[i] != []
  {
    if projects == [] then []
    else (if projects[0] == [] then [] else [projects[0]]) + NonEmptyCodes(projects[1..])
  }

  /** `_build_projects_or_clause`: the terms joined by single spaces, or "" when no code
      is left. */
  function ProjectsOrClause(projects: seq<string>): (r: string)
    ensures r == [] <==> NonEmptyCodes(projects) == []
  {
    ProjectTermsEmpty(projects);
    Join(" ", ProjectTerms(projects))
  }

  lemma {:induction false} ProjectTermsEmpty(projects: seq<string>)
    ensures ProjectTerms(projects) == [] <==> NonEmptyCodes(projects) == []
    ensures ProjectTerms(projects) != [] ==> Join(" ", ProjectTerms(projects)) != []
  {
    if projects != [] {
      var rest := projects[1..];
      ProjectTermsEmpty(rest);
      var ts := ProjectTerms(projects);
      if projects[0] != [] {
        assert ts == [ProjectTerm(projects[0])] + ProjectTerms(rest);
        JoinNonEmpty(ts);
      } else {
        assert ts == ProjectTerms(rest);
        assert NonEmptyCodes(projects) == NonEmptyCodes(rest);
      }
    }
  }

  lemma JoinNonEmpty(ts: seq<string>)
    requires ts != [] && ts[0] != []
    ensures Join(" ", ts) != []
  {
  }

  /** Position of the first `}` in `s`, or |s|. */
  function CloseBrace(s: string): (k: nat)
    ensures k <= |s|
    ensures k < |s| ==> s[k] == '}'
    ensures forall i :: 0 <= i < k ==> s[i] != '}'
  {
    if s == [] || s[0] == '}' then 0 else 1 + CloseBrace(s[1..])
  }

  /** Reads a space-separated list of `project:{P}` terms back into the codes `P`. */
  function ParseProjectsClause(s: string): Option<seq<string>>
    decreases |s|
  {
    if s == [] then Some([])
    else if |s| < 9 || s[..9] != "project:{" then None
    else
      var rest := s[9..];
      var k := CloseBrace(rest);
      if k == |rest| then None
      else
        var after := rest[k + 1..];
        if after == [] then Some([rest[..k]])
        else if after[0] != ' ' then None
        else
          match ParseProjectsClause(after[1..])
          case None => None
          case Some(codes) => Some([rest[..k]] + codes)
  }

  /** A code cannot hold the closing brace of its term. */
  predicate BraceFree(p: string) {
    forall i :: 0 <= i < |p| ==> p[i] != '}'
  }

  lemma CloseBraceAfter(p: string, tail: string)
    requires BraceFree(p)
    ensures CloseBrace(p + "}" + tail) == |p|
  {
    if p != [] {
      assert (p + "}" + tail)[1..] == p[1..] + "}" + tail;
      CloseBraceAfter(p[1..], tail);
    }
  }

  /** A leading non-empty code contributes its term, then a space when more terms follow. */
  lemma ClauseCons(projects: seq<string>)
    requires projects != [] && projects[0] != []
    ensures ProjectsOrClause(projects) ==
      if NonEmptyCodes(projects[1..]) == [] then ProjectTerm(projects[0])
      else ProjectTerm(projects[0]) + " " + ProjectsOrClause(projects[1..])
  {
    var ts := ProjectTerms(projects[1..]);
    ProjectTermsEmpty(projects[1..]);
    assert ProjectTerms(projects) == [ProjectTerm(projects[0])] + ts;
  }

  /** A leading empty code contributes nothing. */
  lemma ClauseSkip(projects: seq<string>)
    requires projects != [] && projects[0] == []
    ensures ProjectsOrClause(projects) == ProjectsOrClause(projects[1..])
    ensures NonEmptyCodes(projects) == NonEmptyCodes(projects[1..])
  {
    assert ProjectTerms(projects) == ProjectTerms(projects[1..]);
  }

  /** One step of the round trip: a leading non-empty code is read back in front of the
      codes of the rest. */
  lemma RoundTripCons(projects: seq<string>)
    requires projects != [] && projects[0] != [] && BraceFree(projects[0])
    requires ParseProjectsClause(ProjectsOrClause(projects[1..])) == Some(NonEmptyCodes(projects[1..]))
    ensures ParseProjectsClause(ProjectsOrClause(projects)) == Some(NonEmptyCodes(projects))
  {
    var p := projects[0];
    var rest := projects[1..];
    ClauseCons(projects);
    assert NonEmptyCodes(projects) == [p] + NonEmptyCodes(rest);
    if NonEmptyCodes(rest) == [] {
      LastTerm(p);
      assert NonEmptyCodes(projects) == [p];
    } else {
      MoreTerms(p, ProjectsOrClause(rest), NonEmptyCodes(rest));
    }
  }

  /** A single term reads back as its code. */
  lemma LastTerm(p: string)
    requires BraceFree(p)
    ensures ParseProjectsClause(ProjectTerm(p)) == Some([p])
  {
    var s := ProjectTerm(p);
    var rest := p + "}";
    assert s == "project:{" + rest;
    assert |s| >= 9 && s[..9] == "project:{" && s[9..] == rest;
    CloseBraceAfter(p, []);
    assert p + "}" + [] == rest;
    assert rest[..|p|] == p;
    assert rest[|p| + 1..] == [];
  }

  /** A term followed by a space and a readable clause reads back as its code in front of
      that clause's codes. */
  lemma MoreTerms(p: string, tail: string, codes: seq<string>)
    requires BraceFree(p) && tail != []
    requires ParseProjectsClause(tail) == Some(codes)
    ensures ParseProjectsClause(ProjectTerm(p) + " " + tail) == Some([p] + codes)
  {
    var s := ProjectTerm(p) + " " + tail;
    var after := " " + tail;
    assert s == "project:{" + (p + "}" + after);
    ClauseStep(s, p, after);
    assert after[1..] == tail;
  }

  /** Unfolds the reader once over a term `project:{p}` followed by a space. */
  lemma ClauseStep(s: string, p: string, after: string)
    requires BraceFree(p) && after != [] && after[0] == ' '
    requires s == "project:{" + (p + "}" + after)
    ensures ParseProjectsClause(s) ==
      match ParseProjectsClause(after[1..])
      case None => None
      case Some(codes) => Some([p] + codes)
  {
    var rest := p + "}" + after;
    assert |s| >= 9 && s[..9] == "project:{" && s[9..] == rest;
    CloseBraceAfter(p, after);
    assert rest[..|p|] == p;
    assert rest[|p| + 1..] == after;
  }

  /** The clause holds one term per non-empty code, in input order, and nothing else:
      reading it back gives exactly those codes. */
  lemma {:induction false} ProjectsOrClauseRoundTrip(projects: seq<string>)
    requires forall i :: 0 <= i < |projects| ==> BraceFree(projects[i])
    ensures ParseProjectsClause(ProjectsOrClause(projects)) == Some(NonEmptyCodes(projects))
  {
    if projects != [] {
      var rest := projects[1..];
      assert forall i :: 0 <= i < |rest| ==> BraceFree(rest[i]) by {
        forall i | 0 <= i < |rest| ensures BraceFree(rest[i]) { assert rest[i] == projects[i + 1]; }
      }
      ProjectsOrClauseRoundTrip(rest);
      if projects[0] == [] {
        ClauseSkip(projects);
      } else {
        RoundTripCons(projects);
      }
    }
  }

  /** `_qt`: the stripped value, in double quotes exactly when it is non-empty and holds
      whitespace. */
  function Qt(val: string): (r: string)
    ensures var v := Strip(val); r == v || r == "\"" + v + "\""
    ensures r != Strip(val) <==> Strip(val) != [] && HasSpace(Strip(val))
  {
    var v := Strip(val);
    if v != [] && HasSpace(v) then "\"" + v + "\"" else v
  }

  /** A quoted value keeps its words together: the result is either one space-free token
      or the stripped value between quotes. */
  lemma QtSingleToken(val: string)
    ensures !HasSpace(Qt(val)) || (Qt(val)[0] == '"' && Qt(val)[1..|Qt(val)| - 1] == Strip(val))
  {
    var v := Strip(val);
    if v != [] && HasSpace(v) {
      assert Qt(val) == "\"" + v + "\"";
      assert Qt(val)[1..|Qt(val)| - 1] == v;
    }
  }

  /** `os.getenv("YOUTRACK_URL", "").rstrip("/")`. */
  function RStripSlash(s: string): (r: string)
    ensures |r| <= |s| && r == s[..|r|]
    ensures r == [] || r[|r| - 1] != '/'
    ensures forall i :: |r| <= i < |s| ==> s[i] == '/'
  {
    if s != [] && s[|s| - 1] == '/' then RStripSlash(s[..|s| - 1]) else s
  }

  /** The `parts` of `yt_issues_url`, joined by single spaces. */
  function IssuesQuery(project: string, start: Date, end: Date, issueType: string, state: string): (q: string)
    requires ValidDate(start) && ValidDate(end)
  {
    var parts := ["Project:{" + project + "}", "created:" + IsoFormat(start) + " .. " + IsoFormat(end), "has:-{Subtask of}"]
      + (if issueType != [] then ["Type:{" + issueType + "}"] else [])
      + (if state != [] then ["State:{" + state + "}"] else []);
    Join(" ", parts)
  }

  /** Three fixed parts, then two optional ones, joined by single spaces. */
  lemma JoinParts(a: string, b: string, c: string, t: string, u: string, hasT: bool, hasU: bool)
    ensures Join(" ", [a, b, c] + (if hasT then [t] else []) + (if hasU then [u] else [])) ==
      a + " " + b + " " + c + (if hasT then " " + t else "") + (if hasU then " " + u else "")
  {
    var base := [a, b, c];
    assert Join(" ", base) == a + " " + b + " " + c by {
      assert base[1..] == [b, c];
      assert [b, c][1..] == [c];
    }
    if hasT {
      JoinAppend(" ", base, t);
      if hasU {
        JoinAppend(" ", base + [t], u);
      } else {
        assert base + [t] + [] == base + [t];
      }
    } else {
      if hasU {
        assert base + [] + [u] == base + [u];
        JoinAppend(" ", base, u);
      } else {
        assert base + [] + [] == base;
      }
    }
  }

  /** The query names the project, the date range and the subtask exclusion, then the type
      only when one is given, then the state only when one is given, all separated by one
      space. */
  lemma IssuesQueryShape(project: string, start: Date, end: Date, issueType: string, state: string)
    requires ValidDate(start) && ValidDate(end)
    ensures IssuesQuery(project, start, end, issueType, state) ==
      ("Project:{" + project + "}") + " " + ("created:" + IsoFormat(start) + " .. " + IsoFormat(end)) + " " + "has:-{Subtask of}"
      + (if issueType != [] then " " + ("Type:{" + issueType + "}") else "")
      + (if state != [] then " " + ("State:{" + state + "}") else "")
  {
    var a := "Project:{" + project + "}";
    var b := "created:" + IsoFormat(start) + " .. " + IsoFormat(end);
    JoinParts(a, b, "has:-{Subtask of}", "Type:{" + issueType + "}", "State:{" + state + "}", issueType != [], state != []);
  }

  /** The link target: no link (`"#"`), or the base URL and the query before URL encoding. */
  datatype IssuesLink = NoLink | Link(base: string, query: string)

  /** `yt_issues_url` with the environment value and `date.today()` passed in. */
  function YtIssuesUrl(envUrl: string, project: string, periodKey: string, issueType: string, state: string, today: Date)
    : (r: Result<IssuesLink, PeriodError>)
    requires ValidDate(today)
    ensures RStripSlash(envUrl) == [] <==> r == Ok(NoLink)
    ensures RStripSlash(envUrl) != [] && periodKey !in PERIOD_KEYS ==> r == Err(UnknownPeriodKey(periodKey, PERIOD_KEYS))
    ensures RStripSlash(envUrl) != [] && GetPeriodRange(periodKey, today).Err? ==>
      r == Err(GetPeriodRange(periodKey, today).error)
    ensures RStripSlash(envUrl) != [] && GetPeriodRange(periodKey, today).Ok? ==> r.Ok? && r.value.Link?
    ensures r.Ok? && r.value.Link? ==> r.value.base == RStripSlash(envUrl)
    ensures r.Ok? && r.value.Link? ==>
      && r.value.base != [] && r.value.base[|r.value.base| - 1] != '/'
      && GetPeriodRange(periodKey, today).Ok?
      && var (start, end) := GetPeriodRange(periodKey, today).value;
         r.value.query == IssuesQuery(project, start, end, issueType, state)
  {
    var base := RStripSlash(envUrl);
    if base == [] then Ok(NoLink)
    else
      match GetPeriodRange(periodKey, today)
      case Err(e) => Err(e)
      case Ok((start, end)) => Ok(Link(base, IssuesQuery(project, start, end, issueType, state)))
  }
}
