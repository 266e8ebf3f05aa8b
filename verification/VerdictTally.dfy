/**
  The verdict counts of one assessment for one fixture, and of one assessment over all fixtures of
  a subject.  A member of the aggregate counts for a fixture when its run names the same dataset,
  fixture and replay, compared by canonical text.
 */
module VerdictTally {
  import opened Prelude
  import J = Json

  datatype Verdict = Abstain | VerdictError | Fail | NotApplicable | Pass

  /** Canonical texts of what a run was made of. */
  datatype Run = Run(dataset: J.Text, fixture: J.Text, replay: J.Text)

  datatype Subject = Subject(fixture: J.Text, replay: J.Text)

  /**
    A member with what the repositories hold about it: its run and result when they are found and
    agree with its references, and whether the assessment lists its run.
   */
  datatype Member = Member(verdict: Verdict, run: Option<Run>, result: Option<Verdict>, listed: bool)

  datatype Counts = Counts(abstain: nat, error: nat, fail: nat, notApplicable: nat, pass: nat, total: nat)

  datatype TallyError = RunUnavailable | ResultUnavailable | RunNotListed | NoOutcome

  /** Every check a member must pass, whether or not it counts for this fixture. */
  predicate Sound(m: Member) { m.run.Some? && m.result == Some(m.verdict) && m.listed }

  predicate Matches(m: Member, dataset: J.Text, s: Subject) {
    m.run == Some(Run(dataset, s.fixture, s.replay))
  }

  function Count(members: seq<Member>, p: Member -> bool): nat {
    if members == [] then 0 else Count(members[..|members| - 1], p) + if p(members[|members| - 1]) then 1 else 0
  }

  function Counting(dataset: J.Text, s: Subject, v: Verdict): Member -> bool {
    (m: Member) => Matches(m, dataset, s) && m.verdict == v
  }

  function Matching(dataset: J.Text, s: Subject): Member -> bool { (m: Member) => Matches(m, dataset, s) }

  predicate Tallied(c: Counts, members: seq<Member>, dataset: J.Text, s: Subject) {
    && c.abstain == Count(members, Counting(dataset, s, Abstain))
    && c.error == Count(members, Counting(dataset, s, VerdictError))
    && c.fail == Count(members, Counting(dataset, s, Fail))
    && c.notApplicable == Count(members, Counting(dataset, s, NotApplicable))
    && c.pass == Count(members, Counting(dataset, s, Pass))
    && c.total == Count(members, Matching(dataset, s))
  }

  /** Everything before position `i` passes its checks, and the member there does not. */
  predicate FirstUnsound(members: seq<Member>, i: nat)
    requires i < |members|
  {
    !Sound(members[i]) && forall j | 0 <= j < i :: Sound(members[j])
  }

  /** The first check that an unsound member fails. */
  function Complaint(m: Member): TallyError {
    if m.run.None? then RunUnavailable
    else if m.result.None? || m.result.value != m.verdict then ResultUnavailable
    else RunNotListed
  }

  /**
    The member loop of one assessment.  It succeeds exactly when every member passes its checks and
    at least one matches, and then counts each matching member under its verdict.
   */
  method TallyMembers(members: seq<Member>, dataset: J.Text, s: Subject) returns (r: Result<Counts, TallyError>)
    ensures r.Ok? <==> (forall i | 0 <= i < |members| :: Sound(members[i])) && Count(members, Matching(dataset, s)) > 0
    ensures r.Ok? ==> Tallied(r.value, members, dataset, s)
    ensures r.Ok? ==> r.value.total == r.value.abstain + r.value.error + r.value.fail + r.value.notApplicable + r.value.pass
    ensures r.Err? && r.error != NoOutcome ==>
            exists i :: 0 <= i < |members| && FirstUnsound(members, i) && r.error == Complaint(members[i])
    ensures r == Err(NoOutcome) <==>
            forall i | 0 <= i < |members| :: Sound(members[i]) && !Matches(members[i], dataset, s)
  {
    var c := Counts(0, 0, 0, 0, 0, 0);
    for i := 0 to |members|
      invariant forall j | 0 <= j < i :: Sound(members[j])
      invariant Tallied(c, members[..i], dataset, s)
      invariant c.total == c.abstain + c.error + c.fail + c.notApplicable + c.pass
    {
      var m := members[i];
      assert members[..i + 1][..i] == members[..i];
      assert !Sound(m) ==> FirstUnsound(members, i);
      if m.run.None? { return Err(RunUnavailable); }
      if m.result != Some(m.verdict) { return Err(ResultUnavailable); }
      if !m.listed { return Err(RunNotListed); }
      if m.run.value.dataset != dataset || m.run.value.fixture != s.fixture || m.run.value.replay != s.replay { continue; }
      c := c.(total := c.total + 1);
      match m.verdict {
        case Abstain => c := c.(abstain := c.abstain + 1);
        case VerdictError => c := c.(error := c.error + 1);
        case Fail => c := c.(fail := c.fail + 1);
        case NotApplicable => c := c.(notApplicable := c.notApplicable + 1);
        case Pass => c := c.(pass := c.pass + 1);
      }
    }
    assert members[..|members|] == members;
    CountPositive(members, Matching(dataset, s));
    r := if c.total == 0 then Err(NoOutcome) else Ok(c);
  }

  lemma {:induction false} CountPositive(members: seq<Member>, p: Member -> bool)
    ensures Count(members, p) > 0 <==> exists i :: 0 <= i < |members| && p(members[i])
  {
    if members != [] {
      var n := |members| - 1;
      CountPositive(members[..n], p);
      if i :| 0 <= i < |members| && p(members[i]) {
        if i < n { assert p(members[..n][i]); }
      }
    }
  }

  // ---------------------------------------------------------------- over all fixtures of a subject

  predicate DistinctSubjects(subjects: seq<Subject>) { forall i, j | 0 <= i < j < |subjects| :: subjects[i] != subjects[j] }

  predicate MatchesAny(m: Member, dataset: J.Text, subjects: seq<Subject>) {
    exists i :: 0 <= i < |subjects| && Matches(m, dataset, subjects[i])
  }

  function SumTotals(members: seq<Member>, dataset: J.Text, subjects: seq<Subject>): nat {
    if subjects == [] then 0
    else SumTotals(members, dataset, subjects[..|subjects| - 1]) + Count(members, Matching(dataset, subjects[|subjects| - 1]))
  }

  function CountAny(members: seq<Member>, dataset: J.Text, subjects: seq<Subject>): nat {
    if members == [] then 0
    else CountAny(members[..|members| - 1], dataset, subjects) + if MatchesAny(members[|members| - 1], dataset, subjects) then 1 else 0
  }

  lemma {:induction false} SumTotalsAppend(members: seq<Member>, m: Member, dataset: J.Text, subjects: seq<Subject>)
    requires DistinctSubjects(subjects)
    ensures SumTotals(members + [m], dataset, subjects) ==
            SumTotals(members, dataset, subjects) + if MatchesAny(m, dataset, subjects) then 1 else 0
  {
    assert (members + [m])[..|members|] == members;
    if subjects != [] {
      var n := |subjects| - 1;
      var rest, last := subjects[..n], subjects[n];
      SumTotalsAppend(members, m, dataset, rest);
      OneMoreSubject(m, dataset, subjects);
    }
  }

  lemma OneMoreSubject(m: Member, dataset: J.Text, subjects: seq<Subject>)
    requires subjects != [] && DistinctSubjects(subjects)
    ensures var n := |subjects| - 1;
            && (MatchesAny(m, dataset, subjects) <==> MatchesAny(m, dataset, subjects[..n]) || Matches(m, dataset, subjects[n]))
            && !(MatchesAny(m, dataset, subjects[..n]) && Matches(m, dataset, subjects[n]))
  {
    var n := |subjects| - 1;
    if i :| 0 <= i < n && Matches(m, dataset, subjects[i]) {
      assert Matches(m, dataset, subjects[..n][i]);
    }
  }

  lemma {:induction false} NoMembers(dataset: J.Text, subjects: seq<Subject>)
    ensures SumTotals([], dataset, subjects) == 0
  {
    if subjects != [] { NoMembers(dataset, subjects[..|subjects| - 1]); }
  }

  /**
    Over distinct fixtures no member is counted twice: the totals add up to the number of members
    that match any of them, so to at most the members there are, and to all of them exactly when
    every member matches one.
   */
  lemma {:induction false} TotalsConserve(members: seq<Member>, dataset: J.Text, subjects: seq<Subject>)
    requires DistinctSubjects(subjects)
    ensures SumTotals(members, dataset, subjects) == CountAny(members, dataset, subjects) <= |members|
    ensures SumTotals(members, dataset, subjects) == |members| <==>
            forall i | 0 <= i < |members| :: MatchesAny(members[i], dataset, subjects)
  {
    if members == [] {
      NoMembers(dataset, subjects);
    } else {
      var n := |members| - 1;
      assert members == members[..n] + [members[n]];
      TotalsConserve(members[..n], dataset, subjects);
      SumTotalsAppend(members[..n], members[n], dataset, subjects);
      assert forall i | 0 <= i < n :: members[..n][i] == members[i];
    }
  }

  /** With a fixture listed twice the bound fails: one matching member is counted twice. */
  lemma RepeatedSubject(m: Member, dataset: J.Text, s: Subject)
    requires Matches(m, dataset, s)
    ensures SumTotals([m], dataset, [s, s]) == 2 > |[m]|
  {
    assert [s, s][..1] == [s] && [s][..0] == [] && [m][..0] == [];
    assert Count([m], Matching(dataset, s)) == Count([], Matching(dataset, s)) + 1;
    assert SumTotals([m], dataset, [s]) == SumTotals([m], dataset, []) + 1;
  }
}
