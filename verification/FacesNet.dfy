/**
 * The Petri net that tests all simplex faces (workflow/full_dim_afaces.xpnet) without precomputed orbit
 * representatives: the task farm of module Farm, with packages of faces as its tasks.
 */
module FacesNet {
  import opened Seqs
  import opened Arithmetic
  import opened Faces
  import opened BlockSkipping
  import opened FaceSkipping
  import opened FacePackages
  import opened PackageLists
  import Farm

  type FaceList = seq<seq<int>>

  /** `r` and `k` come with the problem, `jobSize` with the configuration; `test` is the face test. */
  datatype Net = Net(r: nat, k: nat, jobSize: nat, test: seq<int> -> bool)
  {
    ghost predicate Valid() {
      k <= r < TWO_TO_THE_31 && 1 <= jobSize < TWO_TO_THE_64
    }
  }

  datatype State = State(enabled: nat, finished: nat, farm: Farm.State<Package, Package, seq<int>>)

  datatype Event = Init | Work(e: Farm.Event) | Clean

  ghost function Filter(test: seq<int> -> bool, faces: FaceList): FaceList {
    if faces == [] then []
    else (if test(faces[0]) then [faces[0]] else []) + Filter(test, faces[1..])
  }

  ghost function Generate(net: Net, last: Package): Farm.Generated<Package, Package> {
    if !Good(net.r, last) then Farm.Generated(last, last, false)
    else match NextPackage(net.r, net.k, last, net.jobSize)
    case Created(package, finished) => Farm.Generated(package, package, finished)
    case OutOfRange => Farm.Generated(last, last, false)  // the firing throws; see NeverOutOfRange
  }

  ghost function Plan(net: Net): Farm.Plan<Package, Package, seq<int>> {
    Farm.Plan(
      (last: Package) => Generate(net, last),
      (package: Package) => Filter(net.test, FacesOf(net.r, package)))
  }

  ghost function NoFarm(): Farm.State<Package, Package, seq<int>> {
    Farm.State([], [], [], [], [], [], [], [], [])
  }

  ghost function Start(): State {
    State(1, 0, NoFarm())
  }

  /** `out_full_dim_afaces` is the farm's list, which stays when the net is cleaned. */
  ghost predicate Enabled(net: Net, s: State, e: Event) {
    match e
    case Init => s.enabled > 0
    case Work(w) => Farm.Enabled(Plan(net), s.farm, w)
    case Clean => Farm.Done(s.farm)
  }

  ghost function Fire(net: Net, s: State, e: Event): State
    requires Enabled(net, s, e)
  {
    match e
    case Init =>
      s.(enabled := s.enabled - 1,
         farm := s.farm.(list := s.farm.list + [[]], finished := s.farm.finished + [false],
                         counter := s.farm.counter + [0], last := s.farm.last + [Package([], 0)]))
    case Work(w) =>
      s.(farm := Farm.Fire(Plan(net), s.farm, w))
    case Clean =>
      s.(finished := s.finished + 1,
         farm := s.farm.(finished := s.farm.finished[1..], counter := s.farm.counter[1..],
                         last := s.farm.last[1..]))
  }

  ghost predicate Follows(net: Net, s: State, e: Event, s': State) {
    Enabled(net, s, e) && s' == Fire(net, s, e)
  }

  ghost predicate IsRun(net: Net, states: seq<State>, events: seq<Event>) {
    && |states| == |events| + 1 && states[0] == Start()
    && forall i :: 0 <= i < |events| ==> Follows(net, states[i], events[i], states[i + 1])
  }

  ghost function From(): Farm.Progress<Package, Package> {
    Farm.Progress([], Package([], 0), false)
  }

  // ---------- The packages ----------

  /** The faces of all packages, one package after the other. */
  ghost function Joined(r: nat, packages: seq<Package>): FaceList {
    if packages == [] then []
    else Joined(r, packages[..|packages| - 1]) + FacesOf(r, packages[|packages| - 1])
  }

  ghost function FirstFace(net: Net): (p: Position)
    requires net.Valid()
    ensures OnFace(net.r, p) && p.At?
  {
    UpIsFace(0, net.r, 1, net.k);
    At(Up(1, net.k))
  }

  /** Where the `n`-th package begins. */
  ghost function PackageStart(net: Net, n: nat): (p: Position)
    requires net.Valid()
    ensures OnFace(net.r, p)
  {
    StartOf(net.r, FirstFace(net), net.jobSize, n)
  }

  ghost function ListedBy(net: Net, n: nat): FaceList
    requires net.Valid()
  {
    Listed(net.r, FirstFace(net), net.jobSize, n)
  }

  /** The packages make up the list so far, and the flag is up if the next one would begin at the end. */
  ghost predicate SoFar(net: Net, g: Farm.Progress<Package, Package>, n: nat)
    requires net.Valid()
  {
    && Good(net.r, g.last) && Joined(net.r, g.tasks) == ListedBy(net, n)
    && (g.finished <==> PackageStart(net, n) == End)
    && (!g.finished ==> Resume(net.r, net.k, g.last) == PackageStart(net, n))
  }

  lemma OneMorePackage(net: Net, g: Farm.Progress<Package, Package>, n: nat, next: nat)
    requires net.Valid() && net.k >= 1 && SoFar(net, g, n) && !g.finished && next == n + 1
    ensures NextPackage(net.r, net.k, g.last, net.jobSize).Created?
    ensures var c := Generate(net, g.last);
      SoFar(net, Farm.Progress(g.tasks + [c.task], c.last, c.finished), next)
  {
    var p := PackageStart(net, n);
    var t, c := Skipping(net.r, p, net.jobSize), NextPackage(net.r, net.k, g.last, net.jobSize);
    NonEmptyFaces(net.r, net.k, g.last);
    NextPackageSteps(net.r, net.k, g.last, net.jobSize);
    JoinedOneMore(net.r, g.tasks, c.package);
    NextStart(net, n, next, p, t);
  }

  lemma NextStart(net: Net, n: nat, next: nat, p: Position, t: Round)
    requires net.Valid() && next == n + 1 && p == PackageStart(net, n) && p.At?
    requires t == Skipping(net.r, p, net.jobSize)
    ensures PackageStart(net, next) == Iterate(net.r, p, t.moved)
    ensures PackageStart(net, next) == End <==> t.moved >= Remaining(net.r, p)
    ensures ListedBy(net, next) == ListedBy(net, n) + FacesOf(net.r, Package(p.face, t.lost))
  {
    NextPackageOf(net.r, FirstFace(net), net.jobSize, n, next, p, t);
    IterateCounts(net.r, p, t.moved);
  }

  lemma JoinedOneMore(r: nat, packages: seq<Package>, package: Package)
    ensures Joined(r, packages + [package]) == Joined(r, packages) + FacesOf(r, package)
  {
    assert (packages + [package])[..|packages|] == packages;
  }

  ghost function After(net: Net, n: nat): Farm.Progress<Package, Package> {
    Farm.Advance(Plan(net), From(), n)
  }

  ghost predicate Unfinished(net: Net, i: nat) {
    !After(net, i).finished
  }

  ghost predicate UnfinishedBefore(net: Net, n: nat) {
    forall i: nat :: i < n ==> Unfinished(net, i)
  }

  lemma OneFewerRound(net: Net, n: nat, before: nat)
    requires UnfinishedBefore(net, n) && n == before + 1
    ensures UnfinishedBefore(net, before) && Unfinished(net, before)
  {
  }

  lemma {:induction false} PackagesSoFar(net: Net, n: nat)
    requires net.Valid() && net.k >= 1 && UnfinishedBefore(net, n)
    ensures SoFar(net, After(net, n), n)
  {
    if n == 0 {
      NoPackages(net, n);
    } else {
      var before := n - 1;
      OneFewerRound(net, n, before);
      PackagesSoFar(net, before);
      OneMoreRound(net, before, n);
    }
  }

  lemma NoPackages(net: Net, n: nat)
    requires net.Valid() && net.k >= 1 && n == 0
    ensures SoFar(net, After(net, n), n)
  {
  }

  lemma OneMoreRound(net: Net, n: nat, next: nat)
    requires net.Valid() && net.k >= 1 && Unfinished(net, n) && SoFar(net, After(net, n), n) && next == n + 1
    ensures SoFar(net, After(net, next), next)
  {
    OneMorePackage(net, After(net, n), n, next);
    AfterNext(net, n, next);
  }

  lemma AfterNext(net: Net, n: nat, next: nat)
    requires next == n + 1
    ensures var g := After(net, n);
      var c := Generate(net, g.last);
      After(net, next) == Farm.Progress(g.tasks + [c.task], c.last, c.finished)
  {
  }

  /** createSimplexFaces never dereferences an iterator at its end, whatever wraps. */
  lemma NeverOutOfRange(net: Net, n: nat)
    requires net.Valid() && net.k >= 1
    requires UnfinishedBefore(net, n + 1)
    ensures Good(net.r, After(net, n).last) && NextPackage(net.r, net.k, After(net, n).last, net.jobSize).Created?
  {
    OneFewerRound(net, n + 1, n);
    PackagesSoFar(net, n);
    OneMorePackage(net, After(net, n), n, n + 1);
  }

  /** While the flag is down, the packages begin before the end. */
  lemma StartsGoOn(net: Net, n: nat)
    requires net.Valid() && net.k >= 1 && UnfinishedBefore(net, n)
    ensures GoesOnBefore(net.r, FirstFace(net), net.jobSize, n)
  {
    forall i: nat | i < n
      ensures StartOf(net.r, FirstFace(net), net.jobSize, i).At?
    {
      assert UnfinishedBefore(net, i) && Unfinished(net, i);
      PackagesSoFar(net, i);
    }
  }

  lemma PackagesEnd(net: Net) returns (n: nat)
    requires net.Valid() && net.k >= 1
    ensures Farm.Complete(Plan(net), From(), n)
  {
    var most := Remaining(net.r, FirstFace(net));
    if i: nat :| i <= most && !Unfinished(net, i) {
      n := Farm.FirstFinished(Plan(net), From(), i);
    } else {
      StartsGoOn(net, most + 1);
      StartsMoveOn(net.r, FirstFace(net), net.jobSize, most + 1);
      assert false;
    }
  }

  /** A complete cutting into packages. */
  ghost predicate Packages(net: Net, n: nat, tasks: seq<Package>)
    requires net.Valid()
  {
    EndsAt(net.r, FirstFace(net), net.jobSize, n) && Joined(net.r, tasks) == ListedBy(net, n)
  }

  lemma CompletePackages(net: Net, n: nat)
    requires net.Valid() && net.k >= 1 && Farm.Complete(Plan(net), From(), n)
    ensures Packages(net, n, After(net, n).tasks)
  {
    assert forall i: nat :: i < n ==> !After(net, i).finished;
    assert UnfinishedBefore(net, n);
    PackagesSoFar(net, n);
    StartsGoOn(net, n);
  }

  /** The first increment gets to the end. */
  ghost predicate OnePackage(net: Net)
    requires net.Valid()
  {
    Iterate(net.r, FirstFace(net), Skipping(net.r, FirstFace(net), net.jobSize).moved) == End
  }

  /**
   * Cutting the faces into packages ends after finitely many packages if and only if the first face is not
   * the empty one or the first increment gets to the end; each package then begins where the one before ended.
   */
  lemma PackagesEndIff(net: Net)
    requires net.Valid()
    ensures (exists n: nat :: Farm.Complete(Plan(net), From(), n)) <==> net.k >= 1 || OnePackage(net)
    ensures forall n: nat :: Farm.Complete(Plan(net), From(), n) ==>
              Packages(net, n, Farm.Advance(Plan(net), From(), n).tasks)
  {
    if net.k >= 1 {
      var n := PackagesEnd(net);
      forall m: nat | Farm.Complete(Plan(net), From(), m)
        ensures Packages(net, m, Farm.Advance(Plan(net), From(), m).tasks)
      {
        CompletePackages(net, m);
      }
    } else {
      if OnePackage(net) {
        OneIsComplete(net, 1);
      }
      forall m: nat | Farm.Complete(Plan(net), From(), m)
        ensures OnePackage(net) && Packages(net, m, Farm.Advance(Plan(net), From(), m).tasks)
      {
        CompleteIsOne(net, m);
      }
    }
  }

  lemma OneIsComplete(net: Net, n: nat)
    requires net.Valid() && net.k == 0 && OnePackage(net) && n == 1
    ensures Farm.Complete(Plan(net), From(), n)
  {
    EmptyStart(net, n);
  }

  lemma CompleteIsOne(net: Net, n: nat)
    requires net.Valid() && net.k == 0 && Farm.Complete(Plan(net), From(), n)
    ensures OnePackage(net) && Packages(net, n, After(net, n).tasks)
  {
    EmptyStart(net, n);
    if n > 1 {
      EmptyStart(net, 1);
    }
    OnlyPackage(net, 0, n);
  }

  lemma {:induction false} EmptyStart(net: Net, n: nat)
    requires net.Valid() && net.k == 0
    ensures var g := After(net, n);
      && g.last.start == []
      && (g.finished <==> n > 0 && OnePackage(net))
      && (n == 1 ==> g.tasks == [Package([], Skipping(net.r, FirstFace(net), net.jobSize).lost)])
  {
    if n > 0 {
      var before := n - 1;
      EmptyStart(net, before);
      AfterNext(net, before, n);
      EmptyFirst(net);
      EmptyFaceRestarts(net.r, After(net, before).last, net.jobSize);
    }
  }

  lemma EmptyFirst(net: Net)
    requires net.Valid() && net.k == 0
    ensures FirstFace(net) == At([])
  {
  }

  lemma OnlyPackage(net: Net, none: nat, n: nat)
    requires net.Valid() && net.k == 0 && OnePackage(net) && none == 0 && n == 1
    ensures Packages(net, n, After(net, n).tasks)
  {
    var p := FirstFace(net);
    var package := Package(p.face, Skipping(net.r, p, net.jobSize).lost);
    EmptyStart(net, n);
    EmptyFirst(net);
    SinglePackage(net, none, n, p, package, After(net, n).tasks);
  }

  lemma SinglePackage(net: Net, none: nat, n: nat, p: Position, package: Package, tasks: seq<Package>)
    requires net.Valid() && OnePackage(net) && none == 0 && n == 1 && p == FirstFace(net)
    requires package == Package(p.face, Skipping(net.r, p, net.jobSize).lost) && tasks == [package]
    ensures Packages(net, n, tasks)
  {
    NextStart(net, none, n, p, Skipping(net.r, p, net.jobSize));
    var before: seq<Package> := [];
    JoinedOneMore(net.r, before, package);
    assert before + [package] == tasks;
  }

  /** No increment of the packages accepts a wrap. */
  ghost predicate CleanPackages(net: Net)
    requires net.Valid()
  {
    CleanJobs(net.r, FirstFace(net), net.jobSize)
  }

  /** When they end, the packages list every face once, and nothing else, if and only if no wrap is accepted. */
  lemma PackagesListIff(net: Net, n: nat)
    requires net.Valid() && Farm.Complete(Plan(net), From(), n)
    ensures EachOnce(net.r, FirstFace(net), Joined(net.r, Farm.Advance(Plan(net), From(), n).tasks))
            <==> CleanPackages(net)
  {
    PackagesEndIff(net);
    EachOnceIffClean(net.r, FirstFace(net), net.jobSize, n);
  }

  // ---------- The net ----------

  ghost predicate Finished(net: Net, s: State) {
    && s.farm == NoFarm().(created := s.farm.created, list := s.farm.list) && |s.farm.list| == 1
    && exists n: nat ::
         && Farm.Complete(Plan(net), From(), n)
         && s.farm.created == Farm.Advance(Plan(net), From(), n).tasks
         && multiset(s.farm.list[0]) == Bag(Farm.Output(Plan(net)), s.farm.created)
  }

  ghost predicate Inv(net: Net, s: State) {
    || s == Start()
    || (s.enabled == 0 && s.finished == 0 && Farm.Inv(Plan(net), From(), s.farm))
    || (s.enabled == 0 && s.finished == 1 && Finished(net, s))
  }

  lemma StepInv(net: Net, s: State, e: Event)
    requires Inv(net, s) && Enabled(net, s, e)
    ensures Inv(net, Fire(net, s, e))
  {
    match e
    case Init =>
      InitInv(net);
    case Work(w) =>
      Farm.StepInv(Plan(net), From(), s.farm, w);
    case Clean =>
      CleanFinishes(net, s);
  }

  lemma InitInv(net: Net)
    ensures Farm.Inv(Plan(net), From(), Fire(net, Start(), Init).farm)
  {
    var f := Fire(net, Start(), Init).farm;
    assert Farm.Reached(Plan(net), From(), f, 0);
    assert Farm.Conserved(Plan(net), f);
  }

  lemma CleanFinishes(net: Net, s: State)
    requires Enabled(net, s, Clean) && Farm.Inv(Plan(net), From(), s.farm)
    ensures Finished(net, Fire(net, s, Clean))
  {
    var n := Farm.DoneIsComplete(Plan(net), From(), s.farm);
    var f := Fire(net, s, Clean).farm;
    assert f.finished == [] && f.counter == [] && f.last == [];
    assert f == NoFarm().(created := s.farm.created, list := s.farm.list);
  }

  lemma {:induction false} RunInv(net: Net, states: seq<State>, events: seq<Event>)
    requires IsRun(net, states, events)
    ensures forall s :: s in states ==> Inv(net, s)
  {
    if events != [] {
      var n := |events|;
      RunInv(net, states[..n], events[..n - 1]);
      assert states[n - 1] in states[..n];
      assert Follows(net, states[n - 1], events[n - 1], states[n]);
      StepInv(net, states[n - 1], events[n - 1]);
      assert states == states[..n] + [states[n]];
    }
  }

  lemma {:induction false} FilterConcat(test: seq<int> -> bool, a: FaceList, b: FaceList)
    ensures Filter(test, a + b) == Filter(test, a) + Filter(test, b)
  {
    if a == [] {
      assert a + b == b;
    } else {
      assert (a + b)[1..] == a[1..] + b;
      FilterConcat(test, a[1..], b);
    }
  }

  lemma {:induction false} OutputOfPackages(net: Net, packages: seq<Package>)
    ensures Bag(Farm.Output(Plan(net)), packages) == multiset(Filter(net.test, Joined(net.r, packages)))
    decreases |packages|
  {
    if packages != [] {
      var n := |packages| - 1;
      OutputOfPackages(net, packages[..n]);
      SplitLast(packages);
      OutputOfOneMore(net, packages[..n], packages[n]);
    } else {
      NoOutput(net);
    }
  }

  lemma NoOutput(net: Net)
    ensures Bag(Farm.Output(Plan(net)), []) == multiset(Filter(net.test, Joined(net.r, [])))
  {
  }

  lemma OutputOfOneMore(net: Net, packages: seq<Package>, package: Package)
    requires Bag(Farm.Output(Plan(net)), packages) == multiset(Filter(net.test, Joined(net.r, packages)))
    ensures Bag(Farm.Output(Plan(net)), packages + [package])
            == multiset(Filter(net.test, Joined(net.r, packages + [package])))
  {
    BagAppend(Farm.Output(Plan(net)), packages, package);
    assert (packages + [package])[..|packages|] == packages;
    FilterConcat(net.test, Joined(net.r, packages), FacesOf(net.r, package));
  }

  /** The list holds each face with at least `k` elements that passes the test once, and nothing else. */
  ghost predicate FindsEach(net: Net, list: FaceList) {
    forall f :: multiset(list)[f] == if Face(0, net.r, f) && |f| >= net.k && net.test(f) then 1 else 0
  }

  /** What a finished run has found are the faces of the packages that pass the test. */
  lemma FoundFaces(net: Net, states: seq<State>, events: seq<Event>) returns (n: nat)
    requires net.Valid() && IsRun(net, states, events) && states[|events|].finished > 0
    ensures |states[|events|].farm.list| == 1 && EndsAt(net.r, FirstFace(net), net.jobSize, n)
    ensures forall f :: multiset(states[|events|].farm.list[0])[f]
                        == if net.test(f) then multiset(ListedBy(net, n))[f] else 0
  {
    RunInv(net, states, events);
    assert states[|events|] in states;
    PackagesEndIff(net);
    var s := states[|events|];
    n :| Farm.Complete(Plan(net), From(), n) && s.farm.created == Farm.Advance(Plan(net), From(), n).tasks
         && multiset(s.farm.list[0]) == Bag(Farm.Output(Plan(net)), s.farm.created);
    OutputOfPackages(net, s.farm.created);
    forall f
      ensures multiset(s.farm.list[0])[f] == if net.test(f) then multiset(ListedBy(net, n))[f] else 0
    {
      FilterCounts(net.test, ListedBy(net, n), f);
    }
  }

  /**
   * In whatever order the packages are tested and joined: if no increment accepts a wrap, a finished run has
   * found, once each, exactly the faces with at least `k` elements that pass the test; otherwise there is a
   * face that it has not found, or found twice, unless it does not pass.  Below the largest job size nothing
   * is found twice, and only such faces are found.
   */
  lemma FacesNetCorrect(net: Net, states: seq<State>, events: seq<Event>)
    requires net.Valid() && IsRun(net, states, events) && states[|events|].finished > 0
    ensures |states[|events|].farm.list| == 1
    ensures CleanPackages(net) ==> FindsEach(net, states[|events|].farm.list[0])
    ensures !CleanPackages(net) ==>
              exists f :: Face(0, net.r, f) && |f| >= net.k
                          && (net.test(f) ==> multiset(states[|events|].farm.list[0])[f] != 1)
    ensures net.jobSize + 1 < TWO_TO_THE_64 ==>
              forall f :: multiset(states[|events|].farm.list[0])[f]
                          <= if Face(0, net.r, f) && |f| >= net.k && net.test(f) then 1 else 0
  {
    var n := FoundFaces(net, states, events);
    var list := states[|events|].farm.list[0];
    if CleanPackages(net) {
      CleanIsEachOnce(net.r, FirstFace(net), net.jobSize, n);
      forall f
        ensures multiset(list)[f] == if Face(0, net.r, f) && |f| >= net.k && net.test(f) then 1 else 0
      {
        ComesFirst(net, f);
      }
    } else {
      var f := UncleanSpoils(net.r, FirstFace(net), net.jobSize, n);
      ComesFirst(net, f);
      assert Face(0, net.r, f) && |f| >= net.k && (net.test(f) ==> multiset(list)[f] != 1);
    }
    if net.jobSize + 1 < TWO_TO_THE_64 {
      forall f
        ensures multiset(list)[f] <= if Face(0, net.r, f) && |f| >= net.k && net.test(f) then 1 else 0
      {
        ComesFirst(net, f);
        AtMostOnce(net.r, FirstFace(net), net.jobSize, n, f);
      }
    }
  }

  lemma {:induction false} FilterCounts(test: seq<int> -> bool, faces: FaceList, f: seq<int>)
    ensures multiset(Filter(test, faces))[f] == if test(f) then multiset(faces)[f] else 0
  {
    if faces != [] {
      FilterCounts(test, faces[1..], f);
      assert faces == [faces[0]] + faces[1..];
    }
  }

  lemma EachFaceOnce(net: Net, f: seq<int>)
    requires net.Valid()
    ensures multiset(FacesFrom(net.r, FirstFace(net), Remaining(net.r, FirstFace(net))))[f]
            == if Face(0, net.r, f) && |f| >= net.k then 1 else 0
  {
    CountFrom(net.r, FirstFace(net), f);
    ComesFirst(net, f);
  }

  lemma ComesFirst(net: Net, f: seq<int>)
    requires net.Valid()
    ensures FromHere(net.r, FirstFace(net), f) == if Face(0, net.r, f) && |f| >= net.k then 1 else 0
  {
    if |f| == net.k && Face(0, net.r, f) {
      UpIsFirst(0, net.r, f);
    }
  }

  /** An unfinished run can go on, and for `k >= 1` it has only finitely many steps left. */
  lemma Progress(net: Net, s: State) returns (e: Event)
    requires Inv(net, s) && s.finished == 0
    ensures Enabled(net, s, e)
  {
    if s.enabled > 0 {
      e := Init;
    } else if Farm.Done(s.farm) {
      e := Clean;
    } else {
      var w := Farm.CanStep(Plan(net), s.farm);
      e := Work(w);
    }
  }

  ghost function StepsLeft(rounds: nat, s: State): int {
    if s.enabled > 0 then 5 * rounds + 2
    else if s.finished > 0 then 0
    else 1 + Farm.Left(rounds, s.farm)
  }

  lemma StepsAreBounded(net: Net, rounds: nat, s: State, e: Event)
    requires Farm.Complete(Plan(net), From(), rounds) && Inv(net, s) && Enabled(net, s, e)
    ensures 0 <= StepsLeft(rounds, Fire(net, s, e)) < StepsLeft(rounds, s)
  {
    match e
    case Init =>
    case Work(w) => Farm.StepsAreBounded(Plan(net), From(), rounds, s.farm, w);
    case Clean => Farm.CreatedBounded(Plan(net), From(), rounds, s.farm);
  }
}
