/** The minimal issue record the tracker returns, the custom-field extractors over it and
    the normalisation of the configured project and excluded-type lists.
    A JSON string field that is missing or null is modelled as "", because every use in
    the source goes through `x or ""`. */
module Issues {
  import opened Wrappers
  import opened Strings
  import opened Scan

  /** The `value` of a custom field: a JSON object with `name` and `localizedName`, or
      anything that is not an object (null, a list, a number, a string). */
  datatype FieldValue = Record(name: string, localizedName: string) | NotRecord

  datatype CustomField = CustomField(name: string, value: FieldValue)

  /** Projection `idReadable,project(shortName),created,customFields(name,value(...))`. */
  datatype Issue = Issue(idReadable: string, projectShortName: string, created: int, customFields: seq<CustomField>)

  const TYPE_FIELD_NAMES: set<string> := {"type", "issue type", "issuetype"}
  const STATE_FIELD_NAMES: set<string> := {"state"}

  /** The bucket for an issue without a usable type or state. */
  const UNSPECIFIED := "Unspecified"

  /** `(cf.get("name") or "").strip().lower()`. */
  function FieldKey(cf: CustomField): string {
    Lower(Strip(cf.name))
  }

  /** The display name of a field value: the trimmed `name`, or the trimmed
      `localizedName` when `name` is empty; None when that is empty or the value is not a
      record. A `name` of spaces is truthy in Python, so it does not fall back. */
  function DisplayName(v: FieldValue): (r: Option<string>)
    ensures r.Some? ==> r.value != [] && IsStripped(r.value)
    ensures v.NotRecord? ==> r.None?
    ensures v.Record? && v.name != [] ==> r == (if Strip(v.name) == [] then None else Some(Strip(v.name)))
    ensures v.Record? && v.name == [] ==> r == (if Strip(v.localizedName) == [] then None else Some(Strip(v.localizedName)))
  {
    match v
    case NotRecord => None
    case Record(n, ln) =>
      var t := Strip(if n != [] then n else ln);
      if t == [] then None else Some(t)
  }

  /** Whether a field's key is one of `names`. */
  function NameHit(names: set<string>): CustomField -> bool {
    cf => FieldKey(cf) in names
  }

  function ValueName(cf: CustomField): Option<string> {
    DisplayName(cf.value)
  }

  /** The early-return scan of `_extract_type_from_issue`/`_extract_state_from_issue`
      over the custom fields in order. */
  function ExtractFrom(fields: seq<CustomField>, names: set<string>): (r: Option<string>)
    ensures r.Some? ==> r.value != [] && IsStripped(r.value)
  {
    FirstHit(fields, NameHit(names), ValueName, None)
  }

  /** Whether field `i` is the first whose key is one of `names`. */
  ghost predicate FirstNamed(fields: seq<CustomField>, names: set<string>, i: int) {
    0 <= i < |fields| && FieldKey(fields[i]) in names &&
    forall j :: 0 <= j < i ==> FieldKey(fields[j]) !in names
  }

  /** The first field whose key is one of `names` decides the result. */
  lemma ExtractFromFirstMatch(fields: seq<CustomField>, names: set<string>, i: int)
    requires FirstNamed(fields, names, i)
    ensures ExtractFrom(fields, names) == DisplayName(fields[i].value)
  {
    assert IsFirstHit(fields, NameHit(names), i);
    FirstHitAt(fields, NameHit(names), ValueName, None, i);
  }

  /** When no field's key is one of `names`, the result is None. */
  lemma ExtractFromNoMatch(fields: seq<CustomField>, names: set<string>)
    requires forall j :: 0 <= j < |fields| ==> FieldKey(fields[j]) !in names
    ensures ExtractFrom(fields, names) == None
  {
    FirstHitNone(fields, NameHit(names), ValueName, None);
  }

  /** Fields after the first matching one are never consulted. */
  lemma ExtractFromIgnoresLater(fields: seq<CustomField>, names: set<string>, i: int, later: seq<CustomField>)
    requires FirstNamed(fields, names, i)
    ensures ExtractFrom(fields[..i + 1] + later, names) == ExtractFrom(fields, names)
  {
    assert IsFirstHit(fields, NameHit(names), i);
    FirstHitIgnoresLater(fields, NameHit(names), ValueName, None, i, later);
  }

  /** `_extract_type_from_issue`: fields named Type, Issue Type or IssueType, in any case. */
  function ExtractType(issue: Issue): (r: Option<string>)
    ensures r.Some? ==> r.value != [] && IsStripped(r.value)
  {
    ExtractFrom(issue.customFields, TYPE_FIELD_NAMES)
  }

  /** `_extract_state_from_issue`: the field named State, in any case. */
  function ExtractState(issue: Issue): (r: Option<string>)
    ensures r.Some? ==> r.value != [] && IsStripped(r.value)
  {
    ExtractFrom(issue.customFields, STATE_FIELD_NAMES)
  }

  /** `_extract_type_from_issue(issue) or "Unspecified"`; the extractor never yields "",
      so Python's `or` only replaces None. */
  function TypeOrUnspecified(issue: Issue): string {
    ExtractType(issue).GetOr(UNSPECIFIED)
  }

  function StateOrUnspecified(issue: Issue): string {
    ExtractState(issue).GetOr(UNSPECIFIED)
  }

  /** `itype.strip().lower()`, the form compared with the excluded types. */
  function TypeKey(t: string): string {
    Lower(Strip(t))
  }

  predicate IsExcluded(t: string, excluded: set<string>) {
    TypeKey(t) in excluded
  }

  /** `((issue.get("project") or {}).get("shortName") or "").strip().upper()`. */
  function ProjectOf(issue: Issue): string {
    Upper(Strip(issue.projectShortName))
  }

  /** youtrack_queries.py line 22: every configured code stripped and upper-cased, in
      order, blanks dropped. */
  function NormalizeActiveProjects(raw: seq<string>): seq<string> {
    if raw == [] then []
    else if Strip(raw[0]) == [] then NormalizeActiveProjects(raw[1..])
    else [Upper(Strip(raw[0]))] + NormalizeActiveProjects(raw[1..])
  }

  /** The normalised list is no longer than the configured one, holds only normalised
      codes, and holds the normalisation of every configured code that is not blank. */
  lemma NormalizeActiveProjectsShape(raw: seq<string>)
    ensures var r := NormalizeActiveProjects(raw);
      && |r| <= |raw|
      && (forall c :: c in r ==> IsProjectCode(c))
      && (forall x :: x in raw && Strip(x) != [] ==> Upper(Strip(x)) in r)
      && (forall c :: c in r ==> exists x :: x in raw && Strip(x) != [] && Upper(Strip(x)) == c)
      && ((forall i :: 0 <= i < |raw| ==> Strip(raw[i]) != []) ==>
            |r| == |raw| && forall i :: 0 <= i < |raw| ==> r[i] == Upper(Strip(raw[i])))
  {
    if forall i :: 0 <= i < |raw| ==> Strip(raw[i]) != [] {
      NormalizedNoBlank(raw);
    }
    NormalizedLength(raw);
    NormalizedCodes(raw);
    NormalizedKeepsCodes(raw);
    NormalizedFromRaw(raw);
  }

  /** Without blank codes nothing is dropped: the list is the codes, position by position. */
  lemma {:induction false} NormalizedNoBlank(raw: seq<string>)
    requires forall i :: 0 <= i < |raw| ==> Strip(raw[i]) != []
    ensures |NormalizeActiveProjects(raw)| == |raw|
    ensures forall i :: 0 <= i < |raw| ==> NormalizeActiveProjects(raw)[i] == Upper(Strip(raw[i]))
  {
    if raw != [] {
      var rest := raw[1..];
      assert forall i :: 0 <= i < |rest| ==> Strip(rest[i]) != [] by {
        forall i | 0 <= i < |rest| ensures Strip(rest[i]) != [] {
          assert rest[i] == raw[i + 1];
        }
      }
      NormalizedNoBlank(rest);
      assert Strip(raw[0]) != [];
      var r := NormalizeActiveProjects(raw);
      assert r == [Upper(Strip(raw[0]))] + NormalizeActiveProjects(rest);
      forall i | 0 <= i < |raw| ensures r[i] == Upper(Strip(raw[i])) {
        if i > 0 {
          assert raw[i] == rest[i - 1];
        }
      }
    }
  }

  lemma {:induction false} NormalizedLength(raw: seq<string>)
    ensures |NormalizeActiveProjects(raw)| <= |raw|
  {
    if raw != [] {
      NormalizedLength(raw[1..]);
    }
  }

  lemma {:induction false} NormalizedCodes(raw: seq<string>)
    ensures forall c :: c in NormalizeActiveProjects(raw) ==> IsProjectCode(c)
  {
    if raw != [] {
      var rest := NormalizeActiveProjects(raw[1..]);
      NormalizedCodes(raw[1..]);
      if Strip(raw[0]) != [] {
        var code := Upper(Strip(raw[0]));
        NormalizedCode(raw[0]);
        assert NormalizeActiveProjects(raw) == [code] + rest;
      } else {
        assert NormalizeActiveProjects(raw) == rest;
      }
    }
  }

  lemma {:induction false} NormalizedKeepsCodes(raw: seq<string>)
    ensures forall x :: x in raw && Strip(x) != [] ==> Upper(Strip(x)) in NormalizeActiveProjects(raw)
  {
    if raw != [] {
      NormalizedKeepsCodes(raw[1..]);
      forall x | x in raw && Strip(x) != [] ensures Upper(Strip(x)) in NormalizeActiveProjects(raw) {
        if x != raw[0] {
          assert x in raw[1..];
        }
      }
    }
  }

  lemma {:induction false} NormalizedFromRaw(raw: seq<string>)
    ensures forall c :: c in NormalizeActiveProjects(raw) ==> exists x :: x in raw && Strip(x) != [] && Upper(Strip(x)) == c
  {
    if raw != [] {
      NormalizedFromRaw(raw[1..]);
      forall c | c in NormalizeActiveProjects(raw) ensures exists x :: x in raw && Strip(x) != [] && Upper(Strip(x)) == c {
        if Strip(raw[0]) != [] && c == Upper(Strip(raw[0])) {
          assert raw[0] in raw;
        } else {
          assert c in NormalizeActiveProjects(raw[1..]);
          var x :| x in raw[1..] && Strip(x) != [] && Upper(Strip(x)) == c;
          assert x in raw;
        }
      }
    }
  }

  /** A normalised project code: non-empty, stripped and free of lower-case letters. */
  predicate IsProjectCode(c: string) {
    c != [] && IsStripped(c) && forall i :: 0 <= i < |c| ==> !('a' <= c[i] <= 'z')
  }

  lemma NormalizedCode(x: string)
    requires Strip(x) != []
    ensures IsProjectCode(Upper(Strip(x)))
  {
    var s := Strip(x);
    assert IsSpace(Upper(s)[0]) <==> IsSpace(s[0]);
    assert IsSpace(Upper(s)[|s| - 1]) <==> IsSpace(s[|s| - 1]);
  }

  /** Normalising a code again gives it back. */
  lemma CodeFixed(c: string)
    requires IsProjectCode(c)
    ensures Strip(c) == c && Upper(Strip(c)) == c
  {
    StripOfStripped(c);
    assert Upper(c) == c;
  }

  /** Normalising an already normalised project list changes nothing. */
  lemma {:induction false} NormalizeActiveProjectsIdempotent(raw: seq<string>)
    ensures NormalizeActiveProjects(NormalizeActiveProjects(raw)) == NormalizeActiveProjects(raw)
  {
    var r := NormalizeActiveProjects(raw);
    NormalizeActiveProjectsShape(raw);
    NormalizedFixed(r);
  }

  lemma {:induction false} NormalizedFixed(r: seq<string>)
    requires forall c :: c in r ==> IsProjectCode(c)
    ensures NormalizeActiveProjects(r) == r
  {
    if r != [] {
      CodeFixed(r[0]);
      assert forall c :: c in r[1..] ==> c in r;
      NormalizedFixed(r[1..]);
    }
  }

  /** youtrack_queries.py line 23: the set of stripped, lower-cased configured types,
      blanks dropped. */
  function NormalizeExcludedTypes(raw: seq<string>): (r: set<string>)
    ensures forall t :: t in r ==> t != [] && TypeKey(t) == t
    ensures forall x :: x in raw && Strip(x) != [] ==> TypeKey(x) in r
    ensures forall t :: t in r ==> exists x :: x in raw && TypeKey(x) == t
  {
    assert forall x :: x in raw && Strip(x) != [] ==> TypeKey(x) != [] && TypeKey(TypeKey(x)) == TypeKey(x) by {
      forall x | x in raw && Strip(x) != [] ensures TypeKey(x) != [] && TypeKey(TypeKey(x)) == TypeKey(x) {
        TypeKeyIdempotent(x);
      }
    }
    set x | x in raw && Strip(x) != [] :: TypeKey(x)
  }

  /** A configured excluded type excludes every type that normalises the same way, whatever
      its case or surrounding whitespace. */
  lemma ExcludedTypeMatches(raw: seq<string>, x: string, t: string)
    requires x in raw && Strip(x) != [] && TypeKey(t) == TypeKey(x)
    ensures IsExcluded(t, NormalizeExcludedTypes(raw))
  {
  }

  lemma TypeKeyIdempotent(t: string)
    ensures TypeKey(TypeKey(t)) == TypeKey(t)
  {
    StripLower(Strip(t));
    StripIdempotent(t);
    LowerIdempotent(Strip(t));
  }
}
