/** The OSV entity model (schema 1.3.0): immutable value types with their documented defaults, and the two
    construction invariants of a range. Kotlin's `type` fields are named `kind`, `type` being a keyword. */
module Model {
  import opened Wrappers
  import opened Json
  import opened Text
  import Lists

  /** A point on the time line, as `java.time.Instant`: seconds since the epoch and a nanosecond adjustment. */
  datatype Instant = Instant(epochSecond: int, nano: NanoOfSecond)

  type NanoOfSecond = n: int | 0 <= n < 1_000_000_000

  /** The root entity. Only `id` and `modified` are required; every other field has its default. */
  datatype Vulnerability = Vulnerability(
    schemaVersion: string := "1.0.0",
    id: string,
    modified: Instant,
    published: Option<Instant> := None,
    withdrawn: Option<Instant> := None,
    aliases: seq<string> := [],
    related: seq<string> := [],
    summary: Option<string> := None,
    details: Option<string> := None,
    severity: seq<Severity> := [],
    affected: seq<Affected> := [],
    references: seq<Reference> := [],
    databaseSpecific: Option<JsonObject> := None,
    credits: seq<Credit> := [])

  /** One affected package. `ranges` has no default (it may still be empty). */
  datatype Affected = Affected(
    pkg: Package,
    ranges: seq<CheckedRange>,
    versions: seq<string> := [],
    ecosystemSpecific: Option<JsonObject> := None,
    databaseSpecific: Option<JsonObject> := None)

  datatype Credit = Credit(name: string, contact: seq<string> := [])

  datatype EventType = Introduced | Fixed | LastAffected | Limit

  /** The enum constant's `name`. */
  function EventTypeName(t: EventType): (r: string)
    ensures IsConstantName(r) && r != []
  {
    match t
    case Introduced => "INTRODUCED"
    case Fixed => "FIXED"
    case LastAffected => "LAST_AFFECTED"
    case Limit => "LIMIT"
  }

  /** `enumValueOf<Event.Type>`: the constant whose name is exactly `s`, if there is one. */
  function EventTypeValueOf(s: string): (r: Option<EventType>)
    ensures r.None? ==> forall t :: EventTypeName(t) != s
    ensures r.Some? ==> EventTypeName(r.value) == s
  {
    if s == "INTRODUCED" then Some(Introduced)
    else if s == "FIXED" then Some(Fixed)
    else if s == "LAST_AFFECTED" then Some(LastAffected)
    else if s == "LIMIT" then Some(Limit)
    else None
  }

  /** A boundary of a range: its kind and the version or commit it refers to. */
  datatype Event = Event(kind: EventType, value: string)

  datatype Package = Package(ecosystem: string, name: string, purl: Option<string> := None)

  datatype RangeType = Ecosystem | Git | Semver

  /** The fields of a range. Only a `CheckedRange` (a range satisfying `Valid()`) can come out of `NewRange` or sit
      in an `Affected`. */
  datatype Range = Range(
    kind: RangeType,
    repo: Option<string> := None,
    events: seq<Event>,
    databaseSpecific: Option<JsonObject> := None)
  {
    /** The two construction invariants: a git range names a repository that is not blank, and at least one
        event, anywhere in the list, is an introduction. */
    predicate Valid()
      ensures Valid() ==> |events| > 0
      ensures Valid() && kind == Git ==> repo.Some? && |repo.value| > 0
    {
      (kind == Git ==> HasRepo(repo)) && HasIntroduced(events)
    }
  }

  /** `repo` is present and holds a character that is not whitespace. */
  predicate HasRepo(repo: Option<string>) {
    repo.Some? && exists i :: 0 <= i < |repo.value| && !IsWhitespace(repo.value[i])
  }

  predicate HasIntroduced(events: seq<Event>) {
    exists e :: e in events && e.kind == Introduced
  }

  /** A range that passed its construction checks, the only kind an `Affected` can hold. */
  type CheckedRange = r: Range | r.Valid() witness Range(Ecosystem, events := [Event(Introduced, "")])

  datatype ReferenceType = Advisory | Article | Fix | PackageRef | Report | Web

  datatype Reference = Reference(kind: ReferenceType, url: string)

  datatype SeverityType = CvssV3

  datatype Severity = Severity(kind: SeverityType, score: string)

  /** Why constructing a range failed; the messages name the violated rule. */
  datatype RangeError = GitRangeWithoutRepo | NoIntroducedEvent

  /** Constructing a range: the repository check first, then the introduced-event check, each failing the
      construction as a whole. */
  function NewRange(kind: RangeType, repo: Option<string> := None, events: seq<Event>,
                    databaseSpecific: Option<JsonObject> := None): (r: Result<CheckedRange, RangeError>)
    ensures r.Success? <==> (kind == Git ==> HasRepo(repo)) && HasIntroduced(events)
    ensures r == Failure(GitRangeWithoutRepo) <==> kind == Git && !HasRepo(repo)
    ensures r == Failure(NoIntroducedEvent) <==> (kind == Git ==> HasRepo(repo)) && !HasIntroduced(events)
    ensures r.Success? ==> r.value == Range(kind, repo, events, databaseSpecific)
  {
    if kind == Git && IsNullOrBlank(repo) then Failure(GitRangeWithoutRepo)
    else if Lists.Find(events, (e: Event) => e.kind == Introduced).None? then Failure(NoIntroducedEvent)
    else Success(Range(kind, repo, events, databaseSpecific))
  }

  /** The kind of an ECOSYSTEM or SEMVER range puts no condition on `repo`: absent, blank or not, the outcome is
      the same. */
  lemma NonGitRepoIrrelevant(kind: RangeType, repo: Option<string>, repo': Option<string>, events: seq<Event>,
                             databaseSpecific: Option<JsonObject>)
    requires kind != Git
    ensures NewRange(kind, repo, events, databaseSpecific).Success?
        == NewRange(kind, repo', events, databaseSpecific).Success?
    ensures NewRange(kind, repo, events, databaseSpecific).Failure?
        ==> NewRange(kind, repo, events, databaseSpecific) == NewRange(kind, repo', events, databaseSpecific)
  {
  }

  /** A range without events never constructs. */
  lemma EmptyEventsRejected(kind: RangeType, repo: Option<string>, databaseSpecific: Option<JsonObject>)
    ensures NewRange(kind, repo, [], databaseSpecific).Failure?
  {
  }

  /** Only the introduced-event check looks at the events, and only at which events occur: rearranging them, or
      adding events of any kind anywhere, never turns a success into a failure. */
  lemma {:induction false} EventOrderIrrelevant(kind: RangeType, repo: Option<string>, events: seq<Event>,
                                                events': seq<Event>, databaseSpecific: Option<JsonObject>)
    requires multiset(events) <= multiset(events')
    requires NewRange(kind, repo, events, databaseSpecific).Success?
    ensures NewRange(kind, repo, events', databaseSpecific).Success?
  {
    var e :| e in events && e.kind == Introduced;
    assert e in multiset(events');
  }

  /** Adding further events of any kind after or before the existing ones keeps a range constructible. */
  lemma ExtraEventsAccepted(kind: RangeType, repo: Option<string>, events: seq<Event>, extra: seq<Event>,
                            databaseSpecific: Option<JsonObject>)
    requires NewRange(kind, repo, events, databaseSpecific).Success?
    ensures NewRange(kind, repo, events + extra, databaseSpecific).Success?
    ensures NewRange(kind, repo, extra + events, databaseSpecific).Success?
  {
    EventOrderIrrelevant(kind, repo, events, events + extra, databaseSpecific);
    EventOrderIrrelevant(kind, repo, events, extra + events, databaseSpecific);
  }

  /** `databaseSpecific` plays no part in whether a range constructs. */
  lemma DatabaseSpecificIrrelevant(kind: RangeType, repo: Option<string>, events: seq<Event>,
                                   d: Option<JsonObject>, d': Option<JsonObject>)
    ensures NewRange(kind, repo, events, d).Success? == NewRange(kind, repo, events, d').Success?
  {
  }

  /** Git ranges: no repository, or a blank one, fails; a repository URL succeeds. */
  lemma GitRangeExamples()
    ensures NewRange(Git, None, [Event(Introduced, "x")]) == Failure(GitRangeWithoutRepo)
    ensures NewRange(Git, Some(""), [Event(Introduced, "x")]) == Failure(GitRangeWithoutRepo)
    ensures NewRange(Git, Some(" \t\U{3000}"), [Event(Introduced, "x")]) == Failure(GitRangeWithoutRepo)
    ensures NewRange(Git, None, []) == Failure(GitRangeWithoutRepo)
    ensures NewRange(Git, Some("https://example.com/repo.git"), [Event(Introduced, "x")]).Success?
    ensures NewRange(Semver, None, [Event(Introduced, "1.0.0")]).Success?
    ensures NewRange(Ecosystem, Some(" "), [Event(Introduced, "1.0.0")]).Success?
  {
    assert !IsWhitespace("https://example.com/repo.git"[0]);
  }

  /** The introduced event: absent fails, present anywhere (not only first) succeeds. */
  lemma IntroducedExamples()
    ensures NewRange(Semver, None, [Event(Fixed, "1.2.0")]) == Failure(NoIntroducedEvent)
    ensures NewRange(Semver, None, [Event(Fixed, "1.2.0"), Event(Introduced, "1.0.0")]).Success?
    ensures NewRange(Ecosystem, None, [Event(Limit, "3"), Event(Introduced, "2"), Event(Introduced, "1")]).Success?
  {
  }

  /** A vulnerability built from `id` and `modified` alone carries the documented defaults. */
  lemma VulnerabilityDefaults(id: string, modified: Instant)
    ensures var v := Vulnerability(id := id, modified := modified);
      && v.schemaVersion == "1.0.0" && v.id == id && v.modified == modified
      && v.published == None && v.withdrawn == None
      && v.summary == None && v.details == None && v.databaseSpecific == None
      && v.aliases == [] && v.related == [] && v.severity == [] && v.affected == []
      && v.references == [] && v.credits == []
  {
  }

  /** Defaults of the nested entities: an affected package lists no explicit versions and no extension payloads;
      a package has no purl; a credit has no contacts; a range has no repository. */
  lemma NestedDefaults(pkg: Package, ranges: seq<CheckedRange>, ecosystem: string, name: string)
    ensures var a := Affected(pkg, ranges);
      a.ranges == ranges && a.versions == [] && a.ecosystemSpecific == None && a.databaseSpecific == None
    ensures Package(ecosystem, name).purl == None
    ensures Credit(name).contact == []
    ensures var r := NewRange(Semver, events := [Event(Introduced, "1.0.0")]);
      r.Success? && r.value.repo == None && r.value.databaseSpecific == None
  {
  }

  /** The type invariant of a checked range is exactly the construction check: a range is valid precisely when
      constructing it from its own fields succeeds and gives it back. */
  lemma ValidIffConstructible(r: Range)
    ensures r.Valid() <==> NewRange(r.kind, r.repo, r.events, r.databaseSpecific) == Success(r)
  {
  }

  /** Every range an `Affected` holds is one the construction check accepts: it has an introduced event and, for
      git, a non-blank repository. */
  lemma {:induction false} AffectedRangesConstructible(a: Affected, i: nat)
    requires i < |a.ranges|
    ensures NewRange(a.ranges[i].kind, a.ranges[i].repo, a.ranges[i].events, a.ranges[i].databaseSpecific).Success?
    ensures !IsNullOrBlank(a.ranges[i].repo) || a.ranges[i].kind != Git
    ensures Lists.Find(a.ranges[i].events, (e: Event) => e.kind == Introduced).Some?
  {
  }
}
