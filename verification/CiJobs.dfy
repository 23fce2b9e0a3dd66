/** The generator of CI jobs: one job for every combination of package versions.  All calls of
    the recursion share the dictionary of the job they started from. */
module CiJobs {

  type Variables = map<string, string>
  type Versions = map<string, seq<string>>

  function Key(pkg: string): string { "PYPIC_DEP_VERSION_" + pkg }

  function NameWith(name: string, pkg: string, version: string): string { name + "_" + pkg + version }

  /** What a job prints: its name, and its variables at that time. */
  datatype Printed = Printed(name: string, variables: Variables)

  /** What a call prints, and whether it ends without an exception. */
  datatype Output = Output(printed: seq<Printed>, ok: bool) {
    function Then(more: Output): Output {
      if ok then Output(printed + more.printed, more.ok) else this
    }
  }

  const FAILS := Output([], false)

  // ---------------------------------------------------------------- with true copies

  /** The generator as documented, each job with a dictionary of its own.  An empty list of
      packages, or a package without an entry, is an exception. */
  function WithCopies(name: string, vars: Variables, pkgs: seq<string>, versions: Versions): Output
    decreases |pkgs|, 1, 0
  {
    if pkgs == [] || pkgs[0] !in versions then FAILS else CopiesFrom(name, vars, pkgs, versions, 0)
  }

  function CopiesFrom(name: string, vars: Variables, pkgs: seq<string>, versions: Versions, i: nat): Output
    requires pkgs != [] && pkgs[0] in versions && i <= |versions[pkgs[0]]|
    decreases |pkgs|, 0, |versions[pkgs[0]]| - i
  {
    if i == |versions[pkgs[0]]| then Output([], true)
    else OneCopy(name, vars, pkgs, versions, i).Then(CopiesFrom(name, vars, pkgs, versions, i + 1))
  }

  function OneCopy(name: string, vars: Variables, pkgs: seq<string>, versions: Versions, i: nat): Output
    requires pkgs != [] && pkgs[0] in versions && i < |versions[pkgs[0]]|
    decreases |pkgs|, 0, 0
  {
    var version := versions[pkgs[0]][i];
    var n, v := NameWith(name, pkgs[0], version), vars[Key(pkgs[0]) := version];
    if |pkgs| == 1 then Output([Printed(n, v)], true) else WithCopies(n, v, pkgs[1..], versions)
  }

  // ---------------------------------------------------------------- sharing

  ghost function Keys(pkgs: seq<string>): set<string> {
    if pkgs == [] then {} else {Key(pkgs[0])} + Keys(pkgs[1..])
  }

  /** Two dictionaries that differ in some keys at most. */
  ghost predicate AgreeOutside(a: Variables, b: Variables, keys: set<string>) {
    forall k :: k !in keys ==> (k in a <==> k in b) && (k in a ==> a[k] == b[k])
  }

  lemma AgreeOnAll(a: Variables, b: Variables)
    requires AgreeOutside(a, b, {})
    ensures a == b
  {
  }

  /** Every key of a package in the list is overwritten before anything is printed. */
  lemma {:induction false} OldValuesDoNotMatter(name: string, a: Variables, b: Variables, pkgs: seq<string>,
                                                versions: Versions)
    requires AgreeOutside(a, b, Keys(pkgs))
    ensures WithCopies(name, a, pkgs, versions) == WithCopies(name, b, pkgs, versions)
    decreases |pkgs|, 1, 0
  {
    if pkgs != [] && pkgs[0] in versions { OldValuesFrom(name, a, b, pkgs, versions, 0); }
  }

  lemma {:induction false} OldValuesFrom(name: string, a: Variables, b: Variables, pkgs: seq<string>,
                                         versions: Versions, i: nat)
    requires pkgs != [] && pkgs[0] in versions && i <= |versions[pkgs[0]]| && AgreeOutside(a, b, Keys(pkgs))
    ensures CopiesFrom(name, a, pkgs, versions, i) == CopiesFrom(name, b, pkgs, versions, i)
    decreases |pkgs|, 0, |versions[pkgs[0]]| - i
  {
    if i < |versions[pkgs[0]]| {
      OldValuesOnce(name, a, b, pkgs, versions, i);
      OldValuesFrom(name, a, b, pkgs, versions, i + 1);
    }
  }

  lemma {:induction false} OldValuesOnce(name: string, a: Variables, b: Variables, pkgs: seq<string>,
                                         versions: Versions, i: nat)
    requires pkgs != [] && pkgs[0] in versions && i < |versions[pkgs[0]]| && AgreeOutside(a, b, Keys(pkgs))
    ensures OneCopy(name, a, pkgs, versions, i) == OneCopy(name, b, pkgs, versions, i)
    decreases |pkgs|, 0, 0
  {
    var version := versions[pkgs[0]][i];
    var va, vb := a[Key(pkgs[0]) := version], b[Key(pkgs[0]) := version];
    assert AgreeOutside(va, vb, Keys(pkgs[1..]));
    if |pkgs| == 1 {
      AgreeOnAll(va, vb);
    } else {
      OldValuesDoNotMatter(NameWith(name, pkgs[0], version), va, vb, pkgs[1..], versions);
    }
  }

  // ---------------------------------------------------------------- the generator

  /** The dictionary of a job. */
  class Body {
    var variables: Variables

    constructor (variables: Variables)
      ensures this.variables == variables
    {
      this.variables := variables;
    }
  }

  class Job {
    const name: string
    const body: Body

    constructor (name: string, body: Body)
      ensures this.name == name && this.body == body
    {
      this.name := name;
      this.body := body;
    }
  }

  class StandardOutput {
    var printed: seq<Printed>

    constructor ()
      ensures printed == []
    {
      printed := [];
    }

    method Print(job: Job)
      modifies this
      ensures printed == old(printed) + [Printed(job.name, job.body.variables)]
    {
      printed := printed + [Printed(job.name, job.body.variables)];
    }
  }

  /** The new job has the old one's dictionary, and the dictionary is changed. */
  method ExtendJobWithTestRequirement(job: Job, pkg: string, version: string) returns (r: Job)
    modifies job.body
    ensures fresh(r) && r.name == job.name + "_" + pkg + version && r.body == job.body
    ensures job.body.variables == old(job.body.variables)["PYPIC_DEP_VERSION_" + pkg := version]
  {
    r := new Job(NameWith(job.name, pkg, version), job.body);
    r.body.variables := r.body.variables[Key(pkg) := version];
  }

  /** Prints what the generator with true copies prints. */
  method ConstructJob(job: Job, pkgs: seq<string>, versions: Versions, out: StandardOutput)
    returns (ok: bool)
    modifies job.body, out
    ensures var all := WithCopies(job.name, old(job.body.variables), pkgs, versions);
            ok == all.ok && out.printed == old(out.printed) + all.printed
    ensures AgreeOutside(old(job.body.variables), job.body.variables, Keys(pkgs))
    decreases |pkgs|
  {
    if pkgs == [] || pkgs[0] !in versions { return false; }
    ghost var vars, before := job.body.variables, out.printed;
    ghost var all := CopiesFrom(job.name, vars, pkgs, versions, 0);
    for i := 0 to |versions[pkgs[0]]|
      invariant AgreeOutside(vars, job.body.variables, Keys(pkgs))
      invariant out.printed + CopiesFrom(job.name, vars, pkgs, versions, i).printed == before + all.printed
      invariant CopiesFrom(job.name, vars, pkgs, versions, i).ok == all.ok
    {
      ok := ConstructWith(job, pkgs, versions, i, vars, out);
      if !ok { return; }
    }
    ok := true;
  }

  /** The jobs with one version of the first package. */
  method ConstructWith(job: Job, pkgs: seq<string>, versions: Versions, i: nat, ghost vars: Variables,
                       out: StandardOutput) returns (ok: bool)
    requires pkgs != [] && pkgs[0] in versions && i < |versions[pkgs[0]]|
    requires AgreeOutside(vars, job.body.variables, Keys(pkgs))
    modifies job.body, out
    ensures var one := OneCopy(job.name, vars, pkgs, versions, i);
            ok == one.ok && out.printed == old(out.printed) + one.printed
    ensures AgreeOutside(vars, job.body.variables, Keys(pkgs))
    decreases |pkgs|, 0
  {
    ghost var shared := job.body.variables;
    OldValuesOnce(job.name, vars, shared, pkgs, versions, i);
    var extended := ExtendJobWithTestRequirement(job, pkgs[0], versions[pkgs[0]][i]);
    if |pkgs| == 1 {
      out.Print(extended);
      ok := true;
    } else {
      ok := ConstructJob(extended, pkgs[1..], versions, out);
    }
  }

  // ---------------------------------------------------------------- the product

  /** Every package has an entry. */
  predicate Known(pkgs: seq<string>, versions: Versions) {
    forall i :: 0 <= i < |pkgs| ==> pkgs[i] in versions
  }

  function Prefixed(i: nat, cs: seq<seq<nat>>): (r: seq<seq<nat>>)
    ensures |r| == |cs| && forall k :: 0 <= k < |cs| ==> r[k] == [i] + cs[k]
  {
    seq(|cs|, k requires 0 <= k < |cs| => [i] + cs[k])
  }

  /** All choices of one version number per package, the last package's varying fastest. */
  function Choices(pkgs: seq<string>, versions: Versions): seq<seq<nat>>
    requires Known(pkgs, versions)
    decreases |pkgs|, 1, 0
  {
    if pkgs == [] then [[]] else ChoicesFrom(pkgs, versions, 0)
  }

  function ChoicesFrom(pkgs: seq<string>, versions: Versions, i: nat): seq<seq<nat>>
    requires Known(pkgs, versions) && pkgs != [] && i <= |versions[pkgs[0]]|
    decreases |pkgs|, 0, |versions[pkgs[0]]| - i
  {
    if i == |versions[pkgs[0]]| then []
    else Prefixed(i, Choices(pkgs[1..], versions)) + ChoicesFrom(pkgs, versions, i + 1)
  }

  predicate IsChoice(c: seq<nat>, pkgs: seq<string>, versions: Versions)
    requires Known(pkgs, versions)
  {
    |c| == |pkgs| && forall i :: 0 <= i < |c| ==> c[i] < |versions[pkgs[i]]|
  }

  lemma TailChoice(c: seq<nat>, pkgs: seq<string>, versions: Versions)
    requires Known(pkgs, versions) && pkgs != [] && c != []
    ensures IsChoice(c, pkgs, versions) <==> c[0] < |versions[pkgs[0]]| && IsChoice(c[1..], pkgs[1..], versions)
  {
    if c[0] < |versions[pkgs[0]]| && IsChoice(c[1..], pkgs[1..], versions) {
      forall i | 0 <= i < |c| ensures c[i] < |versions[pkgs[i]]| {
        if i > 0 { assert c[i] == c[1..][i - 1] && pkgs[i] == pkgs[1..][i - 1]; }
      }
    }
  }

  /** The product is complete: it holds every choice, and nothing else. */
  lemma {:induction false} ChoicesComplete(c: seq<nat>, pkgs: seq<string>, versions: Versions)
    requires Known(pkgs, versions)
    ensures c in Choices(pkgs, versions) <==> IsChoice(c, pkgs, versions)
    decreases |pkgs|, 1, 0
  {
    if pkgs != [] {
      ChoicesFromComplete(c, pkgs, versions, 0);
      if c != [] { TailChoice(c, pkgs, versions); }
    }
  }

  lemma InPrefixed(c: seq<nat>, i: nat, cs: seq<seq<nat>>)
    ensures c in Prefixed(i, cs) <==> c != [] && c[0] == i && c[1..] in cs
  {
    if c != [] && c[0] == i && c[1..] in cs {
      var k :| 0 <= k < |cs| && cs[k] == c[1..];
      assert Prefixed(i, cs)[k] == c;
    }
  }

  lemma {:induction false} ChoicesFromComplete(c: seq<nat>, pkgs: seq<string>, versions: Versions, i: nat)
    requires Known(pkgs, versions) && pkgs != [] && i <= |versions[pkgs[0]]|
    ensures c in ChoicesFrom(pkgs, versions, i) <==>
              c != [] && i <= c[0] < |versions[pkgs[0]]| && IsChoice(c[1..], pkgs[1..], versions)
    decreases |pkgs|, 0, |versions[pkgs[0]]| - i
  {
    if i < |versions[pkgs[0]]| {
      ChoicesFromComplete(c, pkgs, versions, i + 1);
      InPrefixed(c, i, Choices(pkgs[1..], versions));
      if c != [] { ChoicesComplete(c[1..], pkgs[1..], versions); }
    }
  }

  /** Lexicographic order. */
  predicate Before(a: seq<nat>, b: seq<nat>) {
    a != [] && b != [] && (a[0] < b[0] || (a[0] == b[0] && Before(a[1..], b[1..])))
  }

  predicate Ordered(cs: seq<seq<nat>>) {
    forall i, j :: 0 <= i < j < |cs| ==> Before(cs[i], cs[j])
  }

  predicate AllBefore(a: seq<seq<nat>>, b: seq<seq<nat>>) {
    forall i, j :: 0 <= i < |a| && 0 <= j < |b| ==> Before(a[i], b[j])
  }

  lemma {:induction false} NotBeforeItself(a: seq<nat>)
    ensures !Before(a, a)
  {
    if a != [] { NotBeforeItself(a[1..]); }
  }

  lemma OrderedIsDistinct(cs: seq<seq<nat>>)
    requires Ordered(cs)
    ensures forall i, j :: 0 <= i < j < |cs| ==> cs[i] != cs[j]
  {
    forall i, j | 0 <= i < j < |cs| ensures cs[i] != cs[j] {
      NotBeforeItself(cs[i]);
    }
  }

  lemma OrderedPrefixed(i: nat, cs: seq<seq<nat>>)
    requires Ordered(cs)
    ensures Ordered(Prefixed(i, cs))
  {
    var r := Prefixed(i, cs);
    forall a, b | 0 <= a < b < |r| ensures Before(r[a], r[b]) {
      assert r[a][1..] == cs[a] && r[b][1..] == cs[b];
    }
  }

  /** The product is in order, and no choice occurs twice. */
  lemma {:induction false} ChoicesOrdered(pkgs: seq<string>, versions: Versions)
    requires Known(pkgs, versions)
    ensures Ordered(Choices(pkgs, versions))
    ensures var cs := Choices(pkgs, versions); forall i, j :: 0 <= i < j < |cs| ==> cs[i] != cs[j]
    decreases |pkgs|, 1, 0
  {
    if pkgs != [] { ChoicesFromOrdered(pkgs, versions, 0); }
    OrderedIsDistinct(Choices(pkgs, versions));
  }

  lemma LaterChoices(pkgs: seq<string>, versions: Versions, i: nat)
    requires Known(pkgs, versions) && pkgs != [] && i < |versions[pkgs[0]]|
    ensures AllBefore(Prefixed(i, Choices(pkgs[1..], versions)), ChoicesFrom(pkgs, versions, i + 1))
  {
    var head, rest := Prefixed(i, Choices(pkgs[1..], versions)), ChoicesFrom(pkgs, versions, i + 1);
    forall a, b | 0 <= a < |head| && 0 <= b < |rest| ensures Before(head[a], rest[b]) {
      ChoicesFromComplete(rest[b], pkgs, versions, i + 1);
    }
  }

  lemma OrderedConcat(a: seq<seq<nat>>, b: seq<seq<nat>>)
    requires Ordered(a) && Ordered(b) && AllBefore(a, b)
    ensures Ordered(a + b)
  {
  }

  lemma {:induction false} ChoicesFromOrdered(pkgs: seq<string>, versions: Versions, i: nat)
    requires Known(pkgs, versions) && pkgs != [] && i <= |versions[pkgs[0]]|
    ensures Ordered(ChoicesFrom(pkgs, versions, i))
    decreases |pkgs|, 0, |versions[pkgs[0]]| - i
  {
    if i < |versions[pkgs[0]]| {
      var head, rest := Prefixed(i, Choices(pkgs[1..], versions)), ChoicesFrom(pkgs, versions, i + 1);
      ChoicesOrdered(pkgs[1..], versions);
      OrderedPrefixed(i, Choices(pkgs[1..], versions));
      ChoicesFromOrdered(pkgs, versions, i + 1);
      LaterChoices(pkgs, versions, i);
      OrderedConcat(head, rest);
    }
  }

  // ---------------------------------------------------------------- the jobs of the product

  /** The job of one choice. */
  function JobOf(name: string, vars: Variables, pkgs: seq<string>, versions: Versions, c: seq<nat>): Printed
    requires Known(pkgs, versions) && IsChoice(c, pkgs, versions)
    decreases |pkgs|
  {
    if pkgs == [] then Printed(name, vars)
    else
      TailChoice(c, pkgs, versions);
      var version := versions[pkgs[0]][c[0]];
      JobOf(NameWith(name, pkgs[0], version), vars[Key(pkgs[0]) := version], pkgs[1..], versions, c[1..])
  }

  ghost predicate AllChoices(cs: seq<seq<nat>>, pkgs: seq<string>, versions: Versions)
    requires Known(pkgs, versions)
  {
    forall k :: 0 <= k < |cs| ==> IsChoice(cs[k], pkgs, versions)
  }

  ghost function Jobs(name: string, vars: Variables, pkgs: seq<string>, versions: Versions, cs: seq<seq<nat>>):
    (r: seq<Printed>)
    requires Known(pkgs, versions) && AllChoices(cs, pkgs, versions)
    ensures |r| == |cs| && forall k :: 0 <= k < |cs| ==> r[k] == JobOf(name, vars, pkgs, versions, cs[k])
  {
    seq(|cs|, k requires 0 <= k < |cs| => JobOf(name, vars, pkgs, versions, cs[k]))
  }

  lemma ChoicesAreChoices(pkgs: seq<string>, versions: Versions)
    requires Known(pkgs, versions)
    ensures AllChoices(Choices(pkgs, versions), pkgs, versions)
  {
    var cs := Choices(pkgs, versions);
    forall k | 0 <= k < |cs| ensures IsChoice(cs[k], pkgs, versions) { ChoicesComplete(cs[k], pkgs, versions); }
  }

  lemma ChoicesFromAreChoices(pkgs: seq<string>, versions: Versions, i: nat)
    requires Known(pkgs, versions) && pkgs != [] && i <= |versions[pkgs[0]]|
    ensures AllChoices(ChoicesFrom(pkgs, versions, i), pkgs, versions)
  {
    var cs := ChoicesFrom(pkgs, versions, i);
    forall k | 0 <= k < |cs| ensures IsChoice(cs[k], pkgs, versions) {
      ChoicesFromComplete(cs[k], pkgs, versions, i);
      TailChoice(cs[k], pkgs, versions);
    }
  }

  /** The printed jobs are those of the product, one for each choice and in order. */
  lemma {:induction false} PrintsTheProduct(name: string, vars: Variables, pkgs: seq<string>, versions: Versions)
    requires Known(pkgs, versions) && pkgs != []
    ensures AllChoices(Choices(pkgs, versions), pkgs, versions)
    ensures WithCopies(name, vars, pkgs, versions)
         == Output(Jobs(name, vars, pkgs, versions, Choices(pkgs, versions)), true)
    decreases |pkgs|, 1, 0
  {
    ChoicesAreChoices(pkgs, versions);
    PrintsFrom(name, vars, pkgs, versions, 0);
  }

  lemma JobsConcat(name: string, vars: Variables, pkgs: seq<string>, versions: Versions,
                   a: seq<seq<nat>>, b: seq<seq<nat>>)
    requires Known(pkgs, versions) && AllChoices(a, pkgs, versions) && AllChoices(b, pkgs, versions)
    ensures AllChoices(a + b, pkgs, versions)
    ensures Jobs(name, vars, pkgs, versions, a + b)
         == Jobs(name, vars, pkgs, versions, a) + Jobs(name, vars, pkgs, versions, b)
  {
  }

  lemma {:induction false} PrintsFrom(name: string, vars: Variables, pkgs: seq<string>, versions: Versions, i: nat)
    requires Known(pkgs, versions) && pkgs != [] && i <= |versions[pkgs[0]]|
    ensures AllChoices(ChoicesFrom(pkgs, versions, i), pkgs, versions)
    ensures CopiesFrom(name, vars, pkgs, versions, i)
         == Output(Jobs(name, vars, pkgs, versions, ChoicesFrom(pkgs, versions, i)), true)
    decreases |pkgs|, 0, |versions[pkgs[0]]| - i
  {
    ChoicesFromAreChoices(pkgs, versions, i);
    if i < |versions[pkgs[0]]| {
      PrintsFrom(name, vars, pkgs, versions, i + 1);
      PrintsOne(name, vars, pkgs, versions, i);
      JobsConcat(name, vars, pkgs, versions, Prefixed(i, Choices(pkgs[1..], versions)),
                 ChoicesFrom(pkgs, versions, i + 1));
    }
  }

  lemma {:induction false} PrintsOne(name: string, vars: Variables, pkgs: seq<string>, versions: Versions, i: nat)
    requires Known(pkgs, versions) && pkgs != [] && i < |versions[pkgs[0]]|
    ensures AllChoices(Prefixed(i, Choices(pkgs[1..], versions)), pkgs, versions)
    ensures OneCopy(name, vars, pkgs, versions, i)
         == Output(Jobs(name, vars, pkgs, versions, Prefixed(i, Choices(pkgs[1..], versions))), true)
    decreases |pkgs|, 0, 0
  {
    var version := versions[pkgs[0]][i];
    var n, v := NameWith(name, pkgs[0], version), vars[Key(pkgs[0]) := version];
    var tails := Choices(pkgs[1..], versions);
    var cs := Prefixed(i, tails);
    ChoicesAreChoices(pkgs[1..], versions);
    forall k | 0 <= k < |cs|
      ensures IsChoice(cs[k], pkgs, versions)
      ensures JobOf(name, vars, pkgs, versions, cs[k]) == JobOf(n, v, pkgs[1..], versions, tails[k])
    {
      assert cs[k][1..] == tails[k];
      TailChoice(cs[k], pkgs, versions);
    }
    if |pkgs| == 1 {
      assert tails == [[]];
    } else {
      PrintsTheProduct(n, v, pkgs[1..], versions);
    }
  }

  // ---------------------------------------------------------------- names and variables

  function Concat(ss: seq<string>): string {
    if ss == [] then "" else ss[0] + Concat(ss[1..])
  }

  /** For every package, an underscore, its name and its version. */
  function Pieces(pkgs: seq<string>, versions: Versions, c: seq<nat>): (ss: seq<string>)
    requires Known(pkgs, versions) && IsChoice(c, pkgs, versions)
    ensures |ss| == |pkgs| && forall i :: 0 <= i < |pkgs| ==> ss[i] == "_" + pkgs[i] + versions[pkgs[i]][c[i]]
  {
    seq(|pkgs|, i requires 0 <= i < |pkgs| => "_" + pkgs[i] + versions[pkgs[i]][c[i]])
  }

  lemma PiecesTail(pkgs: seq<string>, versions: Versions, c: seq<nat>)
    requires Known(pkgs, versions) && IsChoice(c, pkgs, versions) && pkgs != []
    ensures Known(pkgs[1..], versions) && IsChoice(c[1..], pkgs[1..], versions)
    ensures Pieces(pkgs, versions, c)[1..] == Pieces(pkgs[1..], versions, c[1..])
  {
    TailChoice(c, pkgs, versions);
    var a, b := Pieces(pkgs, versions, c)[1..], Pieces(pkgs[1..], versions, c[1..]);
    forall i | 0 <= i < |b| ensures a[i] == b[i] { assert pkgs[1..][i] == pkgs[i + 1] && c[1..][i] == c[i + 1]; }
  }

  /** A job's name is the initial one, followed by those of all packages, in their order. */
  lemma {:induction false} NameShows(name: string, vars: Variables, pkgs: seq<string>, versions: Versions, c: seq<nat>)
    requires Known(pkgs, versions) && IsChoice(c, pkgs, versions)
    ensures JobOf(name, vars, pkgs, versions, c).name == name + Concat(Pieces(pkgs, versions, c))
    decreases |pkgs|
  {
    if pkgs != [] {
      var version := versions[pkgs[0]][c[0]];
      var piece := "_" + pkgs[0] + version;
      PiecesTail(pkgs, versions, c);
      NameShows(NameWith(name, pkgs[0], version), vars[Key(pkgs[0]) := version], pkgs[1..], versions, c[1..]);
      var rest := Concat(Pieces(pkgs[1..], versions, c[1..]));
      assert NameWith(name, pkgs[0], version) + rest == name + (piece + rest);
    }
  }

  lemma {:induction false} KeysOf(pkgs: seq<string>, k: string)
    ensures k in Keys(pkgs) <==> exists i :: 0 <= i < |pkgs| && Key(pkgs[i]) == k
  {
    if pkgs != [] {
      KeysOf(pkgs[1..], k);
      if j :| 0 <= j < |pkgs[1..]| && Key(pkgs[1..][j]) == k { assert Key(pkgs[j + 1]) == k; }
      if i :| 0 <= i < |pkgs| && Key(pkgs[i]) == k { if i > 0 { assert Key(pkgs[1..][i - 1]) == k; } }
    }
  }

  predicate Distinct(pkgs: seq<string>) {
    forall i, j :: 0 <= i < j < |pkgs| ==> pkgs[i] != pkgs[j]
  }

  lemma KeyInjective(a: string, b: string)
    requires Key(a) == Key(b)
    ensures a == b
  {
    assert Key(a)[18..] == a && Key(b)[18..] == b;
  }

  lemma HeadKeyIsNew(pkgs: seq<string>)
    requires Distinct(pkgs) && pkgs != []
    ensures Key(pkgs[0]) !in Keys(pkgs[1..])
  {
    KeysOf(pkgs[1..], Key(pkgs[0]));
    forall j | 0 <= j < |pkgs[1..]| ensures Key(pkgs[1..][j]) != Key(pkgs[0]) {
      assert pkgs[1..][j] == pkgs[j + 1];
      if Key(pkgs[1..][j]) == Key(pkgs[0]) { KeyInjective(pkgs[1..][j], pkgs[0]); }
    }
  }

  /** The variables of a job match its name: each package's has the version the name shows, and
      all others are as they were. */
  lemma {:induction false} VariablesMatchName(name: string, vars: Variables, pkgs: seq<string>,
                                              versions: Versions, c: seq<nat>)
    requires Known(pkgs, versions) && IsChoice(c, pkgs, versions) && Distinct(pkgs)
    ensures JobOf(name, vars, pkgs, versions, c).name == name + Concat(Pieces(pkgs, versions, c))
    ensures AgreeOutside(JobOf(name, vars, pkgs, versions, c).variables, vars, Keys(pkgs))
    ensures forall i :: 0 <= i < |pkgs| ==>
              var v := JobOf(name, vars, pkgs, versions, c).variables;
              Key(pkgs[i]) in v && v[Key(pkgs[i])] == versions[pkgs[i]][c[i]]
    decreases |pkgs|
  {
    NameShows(name, vars, pkgs, versions, c);
    if pkgs != [] {
      var version := versions[pkgs[0]][c[0]];
      var n, w := NameWith(name, pkgs[0], version), vars[Key(pkgs[0]) := version];
      TailChoice(c, pkgs, versions);
      VariablesMatchName(n, w, pkgs[1..], versions, c[1..]);
      HeadKeyIsNew(pkgs);
      var v := JobOf(name, vars, pkgs, versions, c).variables;
      forall i | 0 <= i < |pkgs| ensures Key(pkgs[i]) in v && v[Key(pkgs[i])] == versions[pkgs[i]][c[i]] {
        if i > 0 { assert pkgs[1..][i - 1] == pkgs[i] && c[1..][i - 1] == c[i]; }
      }
    }
  }

  // ---------------------------------------------------------------- exceptions

  /** The list is empty, or a package without an entry is reached. */
  predicate Fails(pkgs: seq<string>, versions: Versions) {
    || pkgs == [] || pkgs[0] !in versions
    || (|pkgs| > 1 && versions[pkgs[0]] != [] && Fails(pkgs[1..], versions))
  }

  lemma {:induction false} FailsIff(name: string, vars: Variables, pkgs: seq<string>, versions: Versions)
    ensures WithCopies(name, vars, pkgs, versions).ok <==> !Fails(pkgs, versions)
    decreases |pkgs|, 1, 0
  {
    if pkgs != [] && pkgs[0] in versions { FailsFrom(name, vars, pkgs, versions, 0); }
  }

  lemma {:induction false} FailsFrom(name: string, vars: Variables, pkgs: seq<string>, versions: Versions, i: nat)
    requires pkgs != [] && pkgs[0] in versions && i <= |versions[pkgs[0]]|
    ensures CopiesFrom(name, vars, pkgs, versions, i).ok <==>
              i == |versions[pkgs[0]]| || |pkgs| == 1 || !Fails(pkgs[1..], versions)
    decreases |pkgs|, 0, |versions[pkgs[0]]| - i
  {
    if i < |versions[pkgs[0]]| {
      FailsFrom(name, vars, pkgs, versions, i + 1);
      if |pkgs| > 1 {
        var version := versions[pkgs[0]][i];
        FailsIff(NameWith(name, pkgs[0], version), vars[Key(pkgs[0]) := version], pkgs[1..], versions);
      }
    }
  }

  /** With a package that has no entry, nothing is printed at all, exception or not: a job is
      only printed once all packages have been passed. */
  lemma {:induction false} UnknownPrintsNothing(name: string, vars: Variables, pkgs: seq<string>, versions: Versions)
    requires !Known(pkgs, versions)
    ensures WithCopies(name, vars, pkgs, versions).printed == []
    decreases |pkgs|, 1, 0
  {
    if pkgs[0] in versions { UnknownFrom(name, vars, pkgs, versions, 0); }
  }

  lemma {:induction false} UnknownFrom(name: string, vars: Variables, pkgs: seq<string>, versions: Versions, i: nat)
    requires pkgs != [] && pkgs[0] in versions && !Known(pkgs, versions) && i <= |versions[pkgs[0]]|
    ensures CopiesFrom(name, vars, pkgs, versions, i).printed == []
    decreases |pkgs|, 0, |versions[pkgs[0]]| - i
  {
    if i < |versions[pkgs[0]]| {
      UnknownFrom(name, vars, pkgs, versions, i + 1);
      var version := versions[pkgs[0]][i];
      assert !Known(pkgs[1..], versions) by {
        var k :| 0 <= k < |pkgs| && pkgs[k] !in versions;
        assert pkgs[1..][k - 1] == pkgs[k];
      }
      UnknownPrintsNothing(NameWith(name, pkgs[0], version), vars[Key(pkgs[0]) := version], pkgs[1..], versions);
    }
  }
}
