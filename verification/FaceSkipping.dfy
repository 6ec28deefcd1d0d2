/**
 * What the rounds of the skipping loop (src/util-gitfan/simplexfaceiterator.cpp) make of a whole increment,
 * and exactly when that is as many single steps.
 */
module FaceSkipping {
  import opened Seqs
  import opened Arithmetic
  import opened Binomials
  import opened BlockSkipping
  import opened Faces

  // ---------- What the three branches do to the count of faces ahead ----------

  lemma TailAhead(n: int, prefix: seq<int>, x: seq<int>, y: seq<int>)
    requires |x| == |y| && x != [] && x[0] <= y[0]
    requires Face(0, n, prefix + x) && Face(y[0] - 1, n, y)
    ensures Face(0, n, prefix + y)
    ensures Ahead(n, prefix + x) - Ahead(n, prefix + y) == Ahead(n, x) - Ahead(n, y)
  {
    ReplaceTail(0, n, prefix, x, y);
    PrefixCounts(n, prefix, x, y);
  }

  /** The last number that is not at its right end moves on, those behind it follow. */
  lemma PushOne(n: int, prefix: seq<int>, a: int, m: nat)
    requires Face(0, n, prefix + ([a] + Up(n - m + 1, m))) && a < n - m
    ensures Face(0, n, prefix + Up(a + 1, m + 1))
    ensures Ahead(n, prefix + ([a] + Up(n - m + 1, m))) == Ahead(n, prefix + Up(a + 1, m + 1)) + 1
  {
    var x, y := [a] + Up(n - m + 1, m), Up(a + 1, m + 1);
    UpIsFace(a, n, a + 1, m + 1);
    TailAhead(n, prefix, x, y);
    assert x[1..] == Up(n - m + 1, m);
    AheadOfUp(n, n - m, m);
    ChooseAll(m);
    AheadOfUp(n, a, m + 1);
  }

  lemma ShiftLast(n: int, prefix: seq<int>, b: int, steps: nat)
    requires Face(0, n, prefix + [b]) && b + steps <= n
    ensures Face(0, n, prefix + [b + steps])
    ensures Ahead(n, prefix + [b]) == Ahead(n, prefix + [b + steps]) + steps
  {
    TailAhead(n, prefix, [b], [b + steps]);
    ChooseOne(n - b);
    ChooseOne(n - b - steps);
  }

  /** Pushing a block of `s` numbers over `z` unused ones passes over C(z + s, s) - 1 faces. */
  lemma ShiftBlock(n: int, prefix: seq<int>, z: nat, s: nat, a: int, b: int)
    requires s > 0 && a == n - z - s + 1 && b == n - s + 1 && Face(0, n, prefix + Up(a, s))
    ensures Face(0, n, prefix + Up(b, s))
    ensures Ahead(n, prefix + Up(a, s)) == Ahead(n, prefix + Up(b, s)) + Choose(z + s, s) - 1
  {
    UpIsFace(n - s, n, b, s);
    TailAhead(n, prefix, Up(a, s), Up(b, s));
    AheadFrom(n, n - z - s, a, s);
    AheadFrom(n, n - s, b, s);
    ChooseAll(s);
  }

  lemma TailIsUp(f: seq<int>, start: nat, a: int, m: nat)
    requires start + m == |f| && forall i :: start <= i < |f| ==> f[i] == a + (i - start)
    ensures f == f[..start] + Up(a, m)
  {
  }

  // ---------- One round ----------

  /** From index `start` on the numbers are consecutive. */
  ghost predicate ConsecutiveFrom(f: seq<int>, start: int) {
    forall i :: 0 <= i < |f| && start <= i ==> f[i] == f[|f| - 1] - (|f| - 1 - i)
  }

  /** Going back from index `i`, where the block of consecutive numbers begins. */
  ghost function BlockStart(f: seq<int>, i: nat): (start: nat)
    requires i < |f|
    ensures start <= i && (ConsecutiveFrom(f, i) ==> ConsecutiveFrom(f, start))
    ensures start > 0 ==> f[start - 1] + 1 != f[start]
  {
    if i > 0 && f[i - 1] + 1 == f[i] then BlockStart(f, i - 1) else i
  }

  /** The length of the block of consecutive numbers at the end of a sequence. */
  ghost function RunLength(f: seq<int>): (r: nat)
    ensures r <= |f| && (f != [] ==> r >= 1) && ConsecutiveFrom(f, |f| - r)
    ensures 0 < r < |f| ==> f[|f| - r - 1] + 1 != f[|f| - r]
  {
    if f == [] then 0 else |f| - BlockStart(f, |f| - 1)
  }

  /** The numbers above the last one of a face; none for the empty face. */
  ghost function Unused(n: nat, f: seq<int>): nat
    requires Face(0, n, f)
  {
    FaceOrder(0, n, f);
    if f == [] then 0 else n - f[|f| - 1]
  }

  /** How many faces a round passes over, and how many steps it subtracts for that. */
  datatype Round = Round(moved: nat, lost: nat)

  ghost function RoundAt(n: nat, f: seq<int>, left: nat): Round
    requires Face(0, n, f)
  {
    var z := Unused(n, f);
    if z == 0 then Round(1, 1)
    else if z >= left then Round(left, left)
    else
      var b := Shifted(z, 1, z + 1, RunLength(f), left);
      ChooseGrows(z, b.size);
      Round(Choose(z + b.size, b.size) - 1, Word(b.diff - 1))
  }

  /** In this round no wrap is accepted. */
  ghost predicate RoundClean(n: nat, f: seq<int>, left: nat)
    requires Face(0, n, f)
  {
    NoneAccepted(Unused(n, f), RunLength(f), left)
  }

  lemma BlockRound(n: nat, f: seq<int>, z: nat, length: nat, left: nat, size: nat, skip: nat)
    requires Face(0, n, f) && z == Unused(n, f) && length == RunLength(f) && 0 < z < left
    requires var b := Shifted(z, 1, z + 1, length, left);
      size == b.size && skip == Word(b.diff - 1)
    ensures RoundAt(n, f, left) == Round(Choose(z + size, size) - 1, skip)
  {
  }

  /** A face that ends in `s` consecutive numbers has enough faces ahead for pushing them to the right end. */
  lemma BlockAhead(n: nat, f: seq<int>, s: nat)
    requires Face(0, n, f) && 1 <= s <= RunLength(f)
    ensures Choose(Unused(n, f) + s, s) - 1 <= Ahead(n, f)
    ensures Unused(n, f) + s <= n
  {
    var g := PushedToEnd(n, f, Unused(n, f), s);
  }

  /** The face with those numbers at the right end. */
  lemma PushedToEnd(n: nat, f: seq<int>, z: nat, s: nat) returns (g: seq<int>)
    requires Face(0, n, f) && z == Unused(n, f) && 1 <= s <= RunLength(f)
    ensures z + s <= n && |g| == |f| && Face(0, n, g) && Unused(n, g) == 0
    ensures Ahead(n, f) == Ahead(n, g) + Choose(z + s, s) - 1
  {
    var a, b := n - z - s + 1, n - s + 1;
    BlockAtEnd(n, f, s, a);
    BlockBelow(n, f, s);
    g := f[..|f| - s] + Up(b, s);
    TailPushed(n, f, f[..|f| - s], g, z, s, a, b);
    LastAtEnd(n, g);
  }

  lemma TailPushed(n: nat, f: seq<int>, prefix: seq<int>, g: seq<int>, z: nat, s: nat, a: int, b: int)
    requires s > 0 && a == n - z - s + 1 && b == n - s + 1 && Face(0, n, f)
    requires f == prefix + Up(a, s) && g == prefix + Up(b, s)
    ensures Face(0, n, g) && Ahead(n, f) == Ahead(n, g) + Choose(z + s, s) - 1 && g[|g| - 1] == n
  {
    ShiftBlock(n, prefix, z, s, a, b);
  }

  lemma LastAtEnd(n: nat, g: seq<int>)
    requires Face(0, n, g) && g != [] && g[|g| - 1] == n
    ensures Unused(n, g) == 0
  {
  }

  lemma BlockAtEnd(n: nat, f: seq<int>, s: nat, a: int)
    requires Face(0, n, f) && 1 <= s <= RunLength(f) && a == n - Unused(n, f) - s + 1
    ensures EndsIn(f, a, s)
  {
    RunAtEnd(f, |f| - RunLength(f), s, a);
  }

  lemma BlockBelow(n: nat, f: seq<int>, s: nat)
    requires Face(0, n, f) && 1 <= s <= RunLength(f)
    ensures Unused(n, f) + s <= n
  {
    RunAtEnd(f, |f| - RunLength(f), s, f[|f| - 1] - s + 1);
    FirstPositive(n, f, |f| - s);
  }

  ghost predicate EndsIn(f: seq<int>, a: int, m: nat) {
    m <= |f| && f == f[..|f| - m] + Up(a, m)
  }

  lemma FirstPositive(n: nat, f: seq<int>, i: nat)
    requires Face(0, n, f) && i < |f|
    ensures 1 <= f[i] <= n
  {
    FaceOrder(0, n, f);
  }

  lemma RunAtEnd(f: seq<int>, start: int, s: nat, a: int)
    requires 1 <= s <= |f| && start <= |f| - s && ConsecutiveFrom(f, start) && a == f[|f| - 1] - s + 1
    ensures f[|f| - s] == a && EndsIn(f, a, s)
  {
    TailIsUp(f, |f| - s, a, s);
  }

  lemma RoundWithin(n: nat, f: seq<int>, left: nat)
    requires Face(0, n, f) && left >= 1
    ensures var r := RoundAt(n, f, left);
      1 <= r.moved <= Remaining(n, At(f)) && r.lost <= left
  {
    var z := Unused(n, f);
    if 0 < z < left {
      SkipWithin(n, f, z, left, RunLength(f));
    } else if z > 0 {
      BlockAhead(n, f, 1);
      ChooseOne(z + 1);
    }
  }

  lemma SkipWithin(n: nat, f: seq<int>, z: nat, left: nat, length: nat)
    requires Face(0, n, f) && z == Unused(n, f) && 0 < z < left && length == RunLength(f) >= 1
    ensures var b := Shifted(z, 1, z + 1, length, left);
      1 <= Choose(z + b.size, b.size) - 1 <= Ahead(n, f) && Word(b.diff - 1) <= left
  {
    WordBelow(z);
    var b := Shifted(z, 1, z + 1, length, left);
    ChooseGrows(z, b.size);
    BlockAhead(n, f, b.size);
  }

  lemma CleanRound(n: nat, f: seq<int>, left: nat)
    requires n < TWO_TO_THE_31 && Face(0, n, f) && left >= 1 && RoundClean(n, f, left)
    ensures RoundAt(n, f, left).moved == RoundAt(n, f, left).lost
  {
    var z := Unused(n, f);
    if 0 < z < left {
      FaceOrder(0, n, f);
      CleanBlock(z, RunLength(f), left);
      WordBelow(Shifted(z, 1, z + 1, RunLength(f), left).diff - 1);
    }
  }

  lemma WrongRound(n: nat, f: seq<int>, left: nat)
    requires n < TWO_TO_THE_31 && Face(0, n, f) && left < TWO_TO_THE_64 && !RoundClean(n, f, left)
    ensures 0 < Unused(n, f) < left
    ensures Miscounted(RoundAt(n, f, left).moved, RoundAt(n, f, left).lost, left)
  {
    if f != [] {
      BlockBelow(n, f, RunLength(f));
    }
    WrongBlock(Unused(n, f), RunLength(f), left);
  }

  /** Having skipped a block, the iterator is at a face with its last number at the right end. */
  lemma AfterSkip(n: nat, f: seq<int>, left: nat) returns (g: seq<int>)
    requires Face(0, n, f) && 0 < Unused(n, f) < left
    ensures Face(0, n, g) && Unused(n, g) == 0 && Iterate(n, At(f), RoundAt(n, f, left).moved) == At(g)
  {
    var z := Unused(n, f);
    var b := Shifted(z, 1, z + 1, RunLength(f), left);
    BlockRound(n, f, z, RunLength(f), left, b.size, Word(b.diff - 1));
    g := PushedToEnd(n, f, z, b.size);
    Jump(n, f, g);
  }

  // ---------- A whole increment ----------

  /** What `left` steps from `p` come to: the faces passed over, and the steps subtracted for them. */
  ghost function Skipping(n: nat, p: Position, left: nat): Round
    requires OnFace(n, p)
    decreases Remaining(n, p)
  {
    if p == End || left == 0 then Round(0, 0) else
      var r := RoundAt(n, p.face, left);
      RoundWithin(n, p.face, left);
      IterateCounts(n, p, r.moved);
      Plus(r, Skipping(n, Iterate(n, p, r.moved), left - r.lost))
  }

  function Plus(a: Round, b: Round): Round {
    Round(a.moved + b.moved, a.lost + b.lost)
  }

  datatype Outcome = Outcome(place: Position, count: int)

  /** The place `left` further steps lead to, and the number of steps then counted, `done` being counted so far. */
  ghost function Reached(n: nat, p: Position, left: nat, done: int): Outcome
    requires OnFace(n, p)
  {
    var t := Skipping(n, p, left);
    Outcome(Iterate(n, p, t.moved), done + t.lost)
  }

  /** Where `inc` single steps lead, which stop at the end, and how many they are. */
  ghost function SingleSteps(n: nat, p: Position, inc: nat): Outcome {
    Outcome(Iterate(n, p, inc), Min(inc, Remaining(n, p)))
  }

  ghost predicate Correct(n: nat, p: Position, inc: nat)
    requires OnFace(n, p)
  {
    Reached(n, p, inc, 0) == SingleSteps(n, p, inc)
  }

  /** In no round of the increment a wrap is accepted. */
  ghost predicate Clean(n: nat, p: Position, left: nat)
    requires OnFace(n, p)
    decreases Remaining(n, p)
  {
    p == End || left == 0 ||
      (RoundClean(n, p.face, left) && (
        var r := RoundAt(n, p.face, left);
        RoundWithin(n, p.face, left);
        IterateCounts(n, p, r.moved);
        Clean(n, Iterate(n, p, r.moved), left - r.lost)))
  }

  /** The first round of an increment, whether it accepts no wrap, and the place it leads to. */
  lemma FirstRound(n: nat, p: Position, left: nat) returns (r: Round, clean: bool, q: Position)
    requires n < TWO_TO_THE_31 && OnFace(n, p) && p.At? && left > 0
    ensures 1 <= r.moved <= Remaining(n, p) && r.lost <= left
    ensures q == Iterate(n, p, r.moved) && OnFace(n, q) && Remaining(n, q) == Remaining(n, p) - r.moved
    ensures Skipping(n, p, left) == Plus(r, Skipping(n, q, left - r.lost))
    ensures Clean(n, p, left) <==> clean && Clean(n, q, left - r.lost)
    ensures clean <==> RoundClean(n, p.face, left)
    ensures Exact(left, n) ==> clean
    ensures clean ==> r.moved == r.lost
    ensures !clean && left < TWO_TO_THE_64 ==> Miscounted(r.moved, r.lost, left)
  {
    r, clean := OneRound(n, p.face, left);
    q := Iterate(n, p, r.moved);
    IterateCounts(n, p, r.moved);
  }

  lemma OneRound(n: nat, f: seq<int>, left: nat) returns (r: Round, clean: bool)
    requires n < TWO_TO_THE_31 && Face(0, n, f) && left >= 1
    ensures r == RoundAt(n, f, left) && (clean <==> RoundClean(n, f, left))
    ensures 1 <= r.moved <= Remaining(n, At(f)) && r.lost <= left
    ensures Exact(left, n) ==> clean
    ensures clean ==> r.moved == r.lost
    ensures !clean && left < TWO_TO_THE_64 ==> Miscounted(r.moved, r.lost, left)
  {
    r, clean := RoundAt(n, f, left), RoundClean(n, f, left);
    RoundWithin(n, f, left);
    if clean {
      CleanRound(n, f, left);
    } else if left < TWO_TO_THE_64 {
      WrongRound(n, f, left);
    }
    if Exact(left, n) {
      ExactRound(n, f, left);
    }
  }

  lemma ExactRound(n: nat, f: seq<int>, left: nat)
    requires Face(0, n, f) && Exact(left, n)
    ensures RoundClean(n, f, left)
  {
    if f != [] {
      BlockAhead(n, f, RunLength(f));
    }
  }

  /** An increment stops when its steps are used up or at the end. */
  lemma {:induction false} SkippingStops(n: nat, p: Position, left: nat, t: Round, ahead: nat)
    requires n < TWO_TO_THE_31 && OnFace(n, p) && t == Skipping(n, p, left) && ahead == Remaining(n, p)
    ensures t.moved <= ahead && t.lost <= left && (t.lost == left || t.moved == ahead)
    decreases ahead
  {
    if p.At? && left > 0 {
      var r, _, q := FirstRound(n, p, left);
      SkippingStops(n, q, left - r.lost, Skipping(n, q, left - r.lost), ahead - r.moved);
    }
  }

  /** It passes over no fewer faces than it counts, and over just as many if and only if it is clean. */
  lemma {:induction false} MovesEnough(n: nat, p: Position, left: nat) returns (t: Round, clean: bool)
    requires n < TWO_TO_THE_31 && OnFace(n, p)
    ensures t == Skipping(n, p, left) && clean == Clean(n, p, left)
    ensures clean ==> t.moved == t.lost
    ensures left + 1 < TWO_TO_THE_64 ==> t.moved >= t.lost
    ensures left + 1 < TWO_TO_THE_64 && !clean ==> t.moved > t.lost
    decreases Remaining(n, p)
  {
    if p == End || left == 0 {
      t, clean := Round(0, 0), true;
    } else {
      var r, cleanHere, q := FirstRound(n, p, left);
      var rest, cleanRest := MovesEnough(n, q, left - r.lost);
      t, clean := Plus(r, rest), cleanHere && cleanRest;
    }
  }

  lemma {:induction false} ExactIsClean(n: nat, p: Position, left: nat)
    requires n < TWO_TO_THE_31 && OnFace(n, p) && Exact(left, n)
    ensures Clean(n, p, left)
    decreases Remaining(n, p)
  {
    if p.At? && left > 0 {
      var r, _, q := FirstRound(n, p, left);
      ExactLess(left - r.lost, left, n);
      ExactIsClean(n, q, left - r.lost);
    }
  }

  lemma CorrectIffEqual(n: nat, p: Position, inc: nat)
    requires n < TWO_TO_THE_31 && OnFace(n, p)
    ensures Correct(n, p, inc) <==> Skipping(n, p, inc).moved == Skipping(n, p, inc).lost
  {
    var t := Skipping(n, p, inc);
    SkippingStops(n, p, inc, t, Remaining(n, p));
    IterateCounts(n, p, inc);
    IterateCounts(n, p, t.moved);
  }

  /** With the last number at the right end the first round is a single step. */
  lemma FromRightEnd(n: nat, f: seq<int>, left: nat) returns (t: Round)
    requires n < TWO_TO_THE_31 && 1 <= left < TWO_TO_THE_64 && Face(0, n, f) && Unused(n, f) == 0
    ensures t == Skipping(n, At(f), left) && t.moved >= t.lost >= 1
  {
    var r := RoundAt(n, f, left);
    IterateCounts(n, At(f), r.moved);
    var q := Iterate(n, At(f), r.moved);
    Continues(n, f, left, r, q);
    var rest, _ := MovesEnough(n, q, left - r.lost);
    t := Plus(r, rest);
  }

  /** The largest increment: if its first round is wrong, the whole of it is. */
  lemma WrongAtFirst(n: nat, f: seq<int>, left: nat) returns (t: Round)
    requires n < TWO_TO_THE_31 && left < TWO_TO_THE_64 && Face(0, n, f) && !RoundClean(n, f, left)
    ensures t == Skipping(n, At(f), left) && Miscounted(t.moved, t.lost, left)
    ensures t.lost < t.moved || t.moved < Remaining(n, At(f))
  {
    WrongRound(n, f, left);
    RoundWithin(n, f, left);
    var r := RoundAt(n, f, left);
    var g := AfterSkip(n, f, left);
    Continues(n, f, left, r, At(g));
    var rest := Round(0, 0);
    if left > r.lost {
      rest := FromRightEnd(n, g, left - r.lost);
    } else {
      NoStepsLeft(n, g, left - r.lost);
      IterateCounts(n, At(f), r.moved);
    }
    t := Plus(r, rest);
  }

  lemma NoStepsLeft(n: nat, g: seq<int>, left: nat)
    requires Face(0, n, g) && left == 0
    ensures Skipping(n, At(g), left) == Round(0, 0)
  {
  }

  /**
   * An increment that accepts a wrap passes over more faces than it counts, or, possible only for the largest
   * increment, over fewer and stops before the end.
   */
  lemma UncleanIsUnequal(n: nat, p: Position, left: nat) returns (t: Round)
    requires n < TWO_TO_THE_31 && left < TWO_TO_THE_64 && OnFace(n, p) && !Clean(n, p, left)
    ensures t == Skipping(n, p, left) && Miscounted(t.moved, t.lost, left)
    ensures t.lost < t.moved || t.moved < Remaining(n, p)
  {
    if left + 1 < TWO_TO_THE_64 {
      var moves, clean := MovesEnough(n, p, left);
      t := moves;
    } else if RoundClean(n, p.face, left) {
      t := UncleanLater(n, p, left);
    } else {
      t := WrongAtFirst(n, p.face, left);
    }
  }

  lemma UncleanLater(n: nat, p: Position, left: nat) returns (t: Round)
    requires n < TWO_TO_THE_31 && left < TWO_TO_THE_64 && OnFace(n, p) && p.At? && left > 0
    requires RoundClean(n, p.face, left) && !Clean(n, p, left)
    ensures t == Skipping(n, p, left) && t.lost < t.moved
  {
    var r, clean, q := FirstRound(n, p, left);
    var rest, _ := MovesEnough(n, q, left - r.lost);
    t := Plus(r, rest);
  }

  /** An increment counts at least one step. */
  lemma CountsSome(n: nat, f: seq<int>, left: nat) returns (t: Round)
    requires n < TWO_TO_THE_31 && 1 <= left < TWO_TO_THE_64 && Face(0, n, f)
    ensures t == Skipping(n, At(f), left) && t.lost >= 1
  {
    var r := RoundAt(n, f, left);
    RoundWithin(n, f, left);
    if 0 < Unused(n, f) < left && r.lost == 0 {
      var g := AfterSkip(n, f, left);
      Continues(n, f, left, r, At(g));
      var rest := FromRightEnd(n, g, left);
      t := Plus(r, rest);
    } else {
      IterateCounts(n, At(f), r.moved);
      Continues(n, f, left, r, Iterate(n, At(f), r.moved));
      t := Skipping(n, At(f), left);
    }
  }

  /** From one place: an increment is correct if and only if it accepts no wrap. */
  lemma CorrectIffClean(n: nat, p: Position, inc: nat)
    requires n < TWO_TO_THE_31 && inc < TWO_TO_THE_64 && OnFace(n, p)
    ensures Correct(n, p, inc) <==> Clean(n, p, inc)
  {
    CorrectIffEqual(n, p, inc);
    if Clean(n, p, inc) {
      var _, _ := MovesEnough(n, p, inc);
    } else {
      var t := UncleanIsUnequal(n, p, inc);
    }
  }

  lemma ExactIsCorrect(n: nat, p: Position, inc: nat)
    requires n < TWO_TO_THE_31 && OnFace(n, p) && Exact(inc, n)
    ensures Correct(n, p, inc)
  {
    ExactIsClean(n, p, inc);
    var _, _ := MovesEnough(n, p, inc);
    CorrectIffEqual(n, p, inc);
  }

  lemma Continues(n: nat, f: seq<int>, left: nat, r: Round, q: Position)
    requires Face(0, n, f) && left > 0 && r == RoundAt(n, f, left)
    requires OnFace(n, q) && Iterate(n, At(f), r.moved) == q && r.lost <= left
    ensures Skipping(n, At(f), left) == Plus(r, Skipping(n, q, left - r.lost))
  {
  }

  // ---------- Where an increment leads ----------

  /** `g` and `rest` are what one round within a size makes of `f` and `left`. */
  ghost predicate Rounded(n: nat, f: seq<int>, left: nat, g: seq<int>, rest: int) {
    && Face(0, n, f) && Face(0, n, g) && |f| == |g|
    && var r := RoundAt(n, f, left);
       r.moved >= 1 && Ahead(n, f) == Ahead(n, g) + r.moved && rest == left - r.lost
  }

  lemma SameOutcome(n: nat, f: seq<int>, left: nat, g: seq<int>, rest: nat, done: int)
    requires left > 0 && Rounded(n, f, left, g, rest)
    ensures Reached(n, At(g), rest, done + left - rest) == Reached(n, At(f), left, done)
    ensures Ahead(n, g) < Ahead(n, f) && rest <= left
  {
    var r := RoundAt(n, f, left);
    RoundWithin(n, f, left);
    Jump(n, f, g);
    OutcomeOn(n, f, left, r, At(g), done);
  }

  /** From the last face of a size, one step. */
  lemma SameOutcomeNext(n: nat, f: seq<int>, left: nat, done: int)
    requires Face(0, n, f) && left > 0 && Unused(n, f) == 0
    ensures OnFace(n, Next(n, At(f)))
    ensures Reached(n, Next(n, At(f)), left - 1, done + 1) == Reached(n, At(f), left, done)
  {
    NextIsNext(n, f, f);
    var one := RoundAt(n, f, left);
    IterateOnce(n, At(f), one.moved);
    OutcomeOn(n, f, left, one, Next(n, At(f)), done);
  }

  lemma IterateOnce(n: int, p: Position, one: nat)
    requires one == 1
    ensures Iterate(n, p, one) == Next(n, p)
  {
  }

  lemma NothingLeft(n: nat, p: Position, left: nat, done: int)
    requires OnFace(n, p) && (left == 0 || p == End)
    ensures Reached(n, p, left, done) == Outcome(p, done)
  {
  }

  lemma CountsFrom(n: nat, p: Position, left: nat, done: int, outcome: Outcome)
    requires OnFace(n, p) && Reached(n, p, left, 0) == outcome
    ensures Reached(n, p, left, done) == Outcome(outcome.place, outcome.count + done)
  {
  }

  lemma OutcomeOn(n: nat, f: seq<int>, left: nat, r: Round, q: Position, done: int)
    requires Face(0, n, f) && left > 0 && r == RoundAt(n, f, left)
    requires OnFace(n, q) && Iterate(n, At(f), r.moved) == q && r.lost <= left
    ensures Reached(n, q, left - r.lost, done + r.lost) == Reached(n, At(f), left, done)
  {
    Continues(n, f, left, r, q);
    PlusOutcome(n, At(f), r, q, Skipping(n, q, left - r.lost), done);
  }

  lemma PlusOutcome(n: int, p: Position, r: Round, q: Position, rest: Round, done: int)
    requires Iterate(n, p, r.moved) == q
    ensures var t := Plus(r, rest);
      Outcome(Iterate(n, p, t.moved), done + t.lost) == Outcome(Iterate(n, q, rest.moved), done + r.lost + rest.lost)
  {
    IterateAdd(n, p, r.moved, rest.moved);
  }
}
