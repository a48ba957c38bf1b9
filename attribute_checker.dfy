/** `Managers/AttributeChecker.cs`: before the first scene loads, every
    `[Event]` method and every `[Request]` field whose declaring class does
    not derive from `Subscriber` is reported with a logged exception. The
    `TypeCache` lookups are inputs: one member table per attribute. */
module AttributeChecker {
  import opened Values
  import opened Seqs
  import opened Attributes

  /** A class as reflection reports it. */
  datatype TypeRef = TypeRef(id: nat, name: string)

  /** An attributed member from `TypeCache`: its name and its declaring
      type, which reflection may report as null. */
  datatype Member = Member(name: string, declaringType: Option<TypeRef>)

  /** The logged exception: "The <type> class has the [<attribute>('<member>')]
      attribute, but it does not inherit from Subscriber!" */
  datatype Report = NotASubscriber(typeName: string, attribute: AttributeKind, memberName: string)

  /** A member the check complains about: its declaring type is known and is
      not among `subclasses`, the classes strictly derived from `Subscriber`. */
  function Outside(subclasses: set<nat>): Member -> bool {
    (m: Member) => m.declaringType.Some? && m.declaringType.value.id !in subclasses
  }

  function ReportFor(m: Member, kind: AttributeKind): Report
    requires m.declaringType.Some?
  {
    NotASubscriber(m.declaringType.value.name, kind, m.name)
  }

  /** One report per member of `s`, in order. */
  function ReportsFor(s: seq<Member>, kind: AttributeKind): (r: seq<Report>)
    requires forall i :: 0 <= i < |s| ==> s[i].declaringType.Some?
    ensures |r| == |s|
    ensures forall i :: 0 <= i < |s| ==> r[i] == ReportFor(s[i], kind)
  {
    seq(|s|, i requires 0 <= i < |s| => ReportFor(s[i], kind))
  }

  /** What one loop of the check logs: a report for each offending member,
      in the order `TypeCache` lists them. */
  function Reported(ms: seq<Member>, subclasses: set<nat>, kind: AttributeKind): seq<Report> {
    var offending := Filter(ms, Outside(subclasses));
    ReportsFor(offending, kind)
  }

  lemma ReportedAppend(a: seq<Member>, b: seq<Member>, subclasses: set<nat>, kind: AttributeKind)
    ensures Reported(a + b, subclasses, kind) == Reported(a, subclasses, kind) + Reported(b, subclasses, kind)
  {
    FilterAppend(a, b, Outside(subclasses));
  }

  /** `OnCompilationFinished`: the `[Event]` methods first, then the
      `[Request]` fields; nothing is thrown, so every member is visited, and
      `[TempRequest]` fields are not looked at. */
  method OnCompilationFinished(eventMethods: seq<Member>, requestFields: seq<Member>, subclasses: set<nat>)
    returns (log: seq<Report>)
    ensures log == Reported(eventMethods, subclasses, Event) + Reported(requestFields, subclasses, Request)
  {
    log := [];
    for i := 0 to |eventMethods|
      invariant log == Reported(eventMethods[..i], subclasses, Event)
    {
      var m := eventMethods[i];
      assert eventMethods[..i + 1] == eventMethods[..i] + [m];
      ReportedAppend(eventMethods[..i], [m], subclasses, Event);
      if m.declaringType.None? {
        continue;
      }
      if m.declaringType.value.id !in subclasses {
        log := log + [NotASubscriber(m.declaringType.value.name, Event, m.name)];
      }
    }
    assert eventMethods[..|eventMethods|] == eventMethods;
    ghost var methodsLog := log;
    for j := 0 to |requestFields|
      invariant log == methodsLog + Reported(requestFields[..j], subclasses, Request)
    {
      var f := requestFields[j];
      assert requestFields[..j + 1] == requestFields[..j] + [f];
      ReportedAppend(requestFields[..j], [f], subclasses, Request);
      if f.declaringType.None? {
        continue;
      }
      if f.declaringType.value.id !in subclasses {
        log := log + [NotASubscriber(f.declaringType.value.name, Request, f.name)];
      }
    }
    assert requestFields[..|requestFields|] == requestFields;
  }

  /** Exactly the offending members are reported: each one with its own
      class and member name, and a member whose declaring type is null or
      derives from `Subscriber` never. */
  lemma {:induction false} ReportedExact(ms: seq<Member>, subclasses: set<nat>, kind: AttributeKind)
    ensures |Reported(ms, subclasses, kind)| <= |ms|
    ensures forall i :: 0 <= i < |ms| && Outside(subclasses)(ms[i]) ==>
      ReportFor(ms[i], kind) in Reported(ms, subclasses, kind)
    ensures forall r :: r in Reported(ms, subclasses, kind) ==>
      exists i :: 0 <= i < |ms| && Outside(subclasses)(ms[i]) && r == ReportFor(ms[i], kind)
  {
    var offending := Filter(ms, Outside(subclasses));
    var log := Reported(ms, subclasses, kind);
    forall i | 0 <= i < |ms| && Outside(subclasses)(ms[i]) ensures ReportFor(ms[i], kind) in log {
      var k :| 0 <= k < |offending| && offending[k] == ms[i];
      assert log[k] == ReportFor(ms[i], kind);
    }
    forall r | r in log ensures exists i :: 0 <= i < |ms| && Outside(subclasses)(ms[i]) && r == ReportFor(ms[i], kind) {
      var k :| 0 <= k < |log| && log[k] == r;
      assert offending[k] in ms;
      var i :| 0 <= i < |ms| && ms[i] == offending[k];
      assert Outside(subclasses)(ms[i]);
    }
  }

  /** A project whose attributed members all sit in `Subscriber` subclasses
      (or have no known declaring type) logs nothing. */
  lemma {:induction false} CleanProjectSilent(eventMethods: seq<Member>, requestFields: seq<Member>, subclasses: set<nat>)
    requires forall i :: 0 <= i < |eventMethods| ==> !Outside(subclasses)(eventMethods[i])
    requires forall i :: 0 <= i < |requestFields| ==> !Outside(subclasses)(requestFields[i])
    ensures Reported(eventMethods, subclasses, Event) + Reported(requestFields, subclasses, Request) == []
  {
    FilterNone(eventMethods, Outside(subclasses));
    FilterNone(requestFields, Outside(subclasses));
  }
}
