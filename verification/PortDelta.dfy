/**
 How a NAT chooses ports (Client.cpp): the histogram over the differences between the global ports of
 successive connections, the increment chosen from it, and the port predicted with it.
 */
module PortDelta {
  const PORTS: nat := 65536
  const SLOTS: nat := 4
  const RANDOM_INCREMENT: int := 0x10000000

  type PortNumber = p: int | 0 <= p < 65536

  /** The differences between successive ports, modulo the number of ports. */
  function Deltas(ports: seq<PortNumber>): (d: seq<int>)
    ensures |d| == if ports == [] then 0 else |ports| - 1
  {
    if |ports| <= 1 then []
    else
      var last: int := ports[|ports| - 1];
      Deltas(ports[..|ports| - 1]) + [(last - ports[|ports| - 2]) % PORTS]
  }

  function Count(deltas: seq<int>, d: int): nat {
    multiset(deltas)[d]
  }

  /** The distinct differences in the order of their first occurrence, four at most. */
  function FirstFour(deltas: seq<int>): (f: seq<int>)
    ensures |f| <= SLOTS && (deltas != [] ==> f != [])
    ensures forall i, j :: 0 <= i < j < |f| ==> f[i] != f[j]
  {
    if deltas == [] then []
    else
      var f, d := FirstFour(deltas[..|deltas| - 1]), deltas[|deltas| - 1];
      if d in f || |f| == SLOTS then f else f + [d]
  }

  /** The most frequent of the differences in `among`; of several, the last. */
  function LastMost(deltas: seq<int>, among: seq<int>): int
    requires among != []
  {
    var last := among[|among| - 1];
    if |among| == 1 then last
    else
      var m := LastMost(deltas, among[..|among| - 1]);
      if Count(deltas, last) >= Count(deltas, m) then last else m
  }

  /** The increment chosen for a sequence of differences. */
  function Chosen(deltas: seq<int>): int {
    if deltas == [] then 0
    else
      var m := LastMost(deltas, FirstFour(deltas));
      if Count(deltas, m) == 1 then RANDOM_INCREMENT else m
  }

  /** The used slots come first, hold the first distinct differences, and count them; the others are zero. */
  ghost predicate Histogram(values: seq<int>, counts: seq<int>, deltas: seq<int>) {
    var f := FirstFour(deltas);
    && |values| == |counts| == SLOTS
    && (forall j :: 0 <= j < |f| ==> values[j] == f[j] && counts[j] == Count(deltas, f[j]) && counts[j] > 0)
    && (forall j :: |f| <= j < SLOTS ==> values[j] == 0 && counts[j] == 0)
  }

  lemma {:induction false} CountAfter(deltas: seq<int>, d: int)
    ensures forall x :: Count(deltas + [d], x) == Count(deltas, x) + if x == d then 1 else 0
    ensures FirstFour(deltas + [d]) ==
            if d in FirstFour(deltas) || |FirstFour(deltas)| == SLOTS then FirstFour(deltas)
                else FirstFour(deltas) + [d]
  {
    assert (deltas + [d])[..|deltas|] == deltas;
  }

  /** A difference not among the first distinct ones, with room for more, has not occurred. */
  lemma {:induction false} NewDelta(deltas: seq<int>, d: int)
    requires d !in FirstFour(deltas) && |FirstFour(deltas)| < SLOTS
    ensures Count(deltas, d) == 0
  {
    if deltas != [] {
      var front, last := deltas[..|deltas| - 1], deltas[|deltas| - 1];
      assert deltas == front + [last];
      CountAfter(front, last);
      NewDelta(front, d);
    }
  }

  lemma {:induction false} DeltasStep(ports: seq<PortNumber>, i: nat)
    requires 1 <= i < |ports|
    ensures
      var here: int := ports[i];
      var delta := here - ports[i - 1];
      Deltas(ports[..i + 1]) == Deltas(ports[..i]) + [if delta < 0 then delta + PORTS else delta]
  {
    assert ports[..i + 1][..i] == ports[..i];
  }

  class Fingerprint {
    var nIncrement: int

    constructor ()
      ensures nIncrement == 0
    {
      nIncrement := 0;
    }

    /** The part of `XAnalyzeNature` that looks at the global ports. */
    method AnalyzeNature(ports: seq<PortNumber>)
      modifies this
      ensures nIncrement == Chosen(Deltas(ports))
    {
      hide Deltas, Histogram, Chosen;
      var values := new int[4](_ => 0);
      var counts := new int[4](_ => 0);
      EmptyHistogram(values[..], counts[..], ports);
      var i := 1;
      while i < |ports|
        invariant 1 <= i && (ports != [] ==> i <= |ports|)
        invariant Histogram(values[..], counts[..], if ports == [] then [] else Deltas(ports[..i]))
      {
        var here: int := ports[i];
        var delta: int := here - ports[i - 1];
        if delta < 0 {
          delta := delta + 65536;
        }
        DeltasStep(ports, i);
        Record(values, counts, delta, Deltas(ports[..i]));
        i := i + 1;
      }
      assert ports == [] || ports[..i] == ports;
      assert ports == [] ==> Deltas(ports) == [];
      var best, increment := LastMaximum(values, counts, Deltas(ports));
      nIncrement := if best == 1 then RANDOM_INCREMENT else increment;
    }
  }

  lemma EmptyHistogram(values: seq<int>, counts: seq<int>, ports: seq<PortNumber>)
    requires |values| == |counts| == 4 && forall j :: 0 <= j < 4 ==> values[j] == 0 && counts[j] == 0
    ensures Histogram(values, counts, [])
    ensures ports != [] ==> Deltas(ports[..1]) == []
  {
  }

  /** A slot already standing for the difference is counted up. */
  lemma {:induction false} Recorded(values: seq<int>, counts: seq<int>, deltas: seq<int>, delta: int, j: nat)
    requires Histogram(values, counts, deltas) && j < SLOTS
    requires
      var f := FirstFour(deltas);
      if delta in f then j < |f| && f[j] == delta else j == |f|
    ensures Histogram(values[j := delta], counts[j := counts[j] + 1], deltas + [delta])
  {
    hide FirstFour, Count;
    CountAfter(deltas, delta);
    if delta !in FirstFour(deltas) {
      NewDelta(deltas, delta);
    }
  }

  lemma {:induction false} NotRecorded(values: seq<int>, counts: seq<int>, deltas: seq<int>, delta: int)
    requires Histogram(values, counts, deltas) && delta !in FirstFour(deltas) && |FirstFour(deltas)| == SLOTS
    ensures Histogram(values, counts, deltas + [delta])
  {
    CountAfter(deltas, delta);
  }

  /** The first slot with this value: the right one, or, for a new zero, the first empty one. */
  lemma {:induction false} FirstMatch(values: seq<int>, counts: seq<int>, deltas: seq<int>, delta: int, j: nat)
    requires Histogram(values, counts, deltas) && j <= SLOTS
    requires (forall i :: 0 <= i < j ==> values[i] != delta) && (j < SLOTS ==> values[j] == delta)
    ensures delta in FirstFour(deltas) ==> j < |FirstFour(deltas)| && FirstFour(deltas)[j] == delta
    ensures delta !in FirstFour(deltas) && j < SLOTS ==> j == |FirstFour(deltas)|
  {
    var f := FirstFour(deltas);
    if delta in f {
      var i :| 0 <= i < |f| && f[i] == delta;
      assert values[i] == delta;
    } else {
      assert |f| < SLOTS ==> values[|f|] == 0;
    }
  }

  /** The slot with the value counts up; failing that, the first empty slot takes it. */
  method Record(values: array<int>, counts: array<int>, delta: int, ghost deltas: seq<int>)
    requires values != counts && Histogram(values[..], counts[..], deltas)
    requires values.Length == counts.Length == 4
    modifies values, counts
    ensures Histogram(values[..], counts[..], deltas + [delta])
  {
    hide Histogram, FirstFour;
    ghost var v, c := values[..], counts[..];
    var j := 0;
    while j < 4 && values[j] != delta
      invariant 0 <= j <= 4 && forall i :: 0 <= i < j ==> values[i] != delta
    {
      j := j + 1;
    }
    FirstMatch(v, c, deltas, delta, j);
    if j < 4 {
      Recorded(v, c, deltas, delta, j);
      counts[j] := counts[j] + 1;
      assert values[..] == v[j := delta] && counts[..] == c[j := c[j] + 1];
      return;
    }
    j := 0;
    while j < 4 && counts[j] != 0
      invariant 0 <= j <= 4 && forall i :: 0 <= i < j ==> counts[i] != 0
    {
      j := j + 1;
    }
    FirstEmpty(v, c, deltas, j);
    if j < 4 {
      Recorded(v, c, deltas, delta, j);
      counts[j] := counts[j] + 1;
      values[j] := delta;
      assert values[..] == v[j := delta] && counts[..] == c[j := c[j] + 1];
    } else {
      NotRecorded(v, c, deltas, delta);
    }
  }

  lemma {:induction false} FirstEmpty(values: seq<int>, counts: seq<int>, deltas: seq<int>, j: nat)
    requires Histogram(values, counts, deltas) && j <= SLOTS
    requires (forall i :: 0 <= i < j ==> counts[i] != 0) && (j < SLOTS ==> counts[j] == 0)
    ensures j == |FirstFour(deltas)|
  {
    assert |FirstFour(deltas)| < SLOTS ==> counts[|FirstFour(deltas)|] == 0;
  }

  /** The last slot with the highest count. */
  method LastMaximum(values: array<int>, counts: array<int>, ghost deltas: seq<int>) returns (best: int, increment: int)
    requires values.Length == counts.Length == 4 && Histogram(values[..], counts[..], deltas)
    ensures (if best == 1 then RANDOM_INCREMENT else increment) == Chosen(deltas)
  {
    best, increment := 0, 0xFFFFFFFF;
    ghost var f := FirstFour(deltas);
    assert values[..][..|f|] == f;
    for i := 0 to 4
      invariant i == 0 ==> best == 0
      invariant f == [] && i > 0 ==> best == 0 && increment == 0
      invariant f != [] && i > 0 ==>
                  increment == LastMost(deltas, f[..if i < |f| then i else |f|]) &&
                      best == Count(deltas, increment) && best > 0
    {
      if i < |f| {
        assert f[..i + 1][..i] == f[..i];
      }
      if counts[i] >= best {
        best, increment := counts[i], values[i];
      }
    }
    assert f[..|f|] == f;
    assert deltas == [] <==> f == [];
  }

  // --------------------------------------------------------------------------- What is chosen

  lemma {:induction false} LastMostIsMost(deltas: seq<int>, among: seq<int>)
    requires among != []
    ensures LastMost(deltas, among) in among
    ensures forall d :: d in among ==> Count(deltas, d) <= Count(deltas, LastMost(deltas, among))
  {
    if |among| > 1 {
      LastMostIsMost(deltas, among[..|among| - 1]);
      assert among == among[..|among| - 1] + [among[|among| - 1]];
    }
  }

  lemma {:induction false} FirstFourOccur(deltas: seq<int>)
    ensures forall d :: d in FirstFour(deltas) ==> d in deltas
  {
    if deltas != [] {
      FirstFourOccur(deltas[..|deltas| - 1]);
    }
  }

  lemma OccursMeansCounted(deltas: seq<int>, d: int)
    ensures d in deltas <==> Count(deltas, d) > 0
  {
  }

  lemma {:induction false} DeltasInRange(ports: seq<PortNumber>)
    ensures forall d :: d in Deltas(ports) ==> 0 <= d < PORTS
  {
    if |ports| > 1 {
      DeltasInRange(ports[..|ports| - 1]);
    }
  }

  /** At most four distinct differences: all of them are in the histogram. */
  lemma {:induction false} FirstFourComplete(deltas: seq<int>, all: set<int>)
    requires (forall d :: d in deltas ==> d in all) && |all| <= SLOTS
    ensures forall d :: d in deltas ==> d in FirstFour(deltas)
    decreases |deltas|
  {
    if deltas != [] {
      var front, last := deltas[..|deltas| - 1], deltas[|deltas| - 1];
      FirstFourComplete(front, all);
      assert deltas == front + [last];
      FirstFourOccur(front);
      if last !in FirstFour(front) && |FirstFour(front)| == SLOTS {
        var f := FirstFour(front);
        var four := {f[0], f[1], f[2], f[3]};
        assert f[0] in f && f[1] in f && f[2] in f && f[3] in f;
        assert four + {last} <= all && |four + {last}| == 5;
        Subset(four + {last}, all);
      }
    }
  }

  lemma {:induction false} Subset(a: set<int>, b: set<int>)
    requires a <= b
    ensures |a| <= |b|
  {
    assert b == a + (b - a);
  }

  /** Where a difference occurs first. */
  function FirstIndex(deltas: seq<int>, x: int): (i: nat)
    requires x in deltas
    ensures i < |deltas| && deltas[i] == x && x !in deltas[..i]
  {
    var front := deltas[..|deltas| - 1];
    if x in front then
      assert front[..FirstIndex(front, x)] == deltas[..FirstIndex(front, x)];
      FirstIndex(front, x)
    else |deltas| - 1
  }

  /** The histogram holds the differences that occur first, in the order in which they do. */
  lemma {:induction false} FirstFourInOrder(deltas: seq<int>)
    ensures forall x :: x in FirstFour(deltas) ==> x in deltas
    ensures
      var f := FirstFour(deltas);
      && (forall j, k :: 0 <= j < k < |f| ==> FirstIndex(deltas, f[j]) < FirstIndex(deltas, f[k]))
      && (forall x :: x in deltas && x !in f ==>
            |f| == SLOTS && forall j :: 0 <= j < |f| ==> FirstIndex(deltas, f[j]) < FirstIndex(deltas, x))
  {
    FirstFourOccur(deltas);
    if deltas != [] {
      var front, last := deltas[..|deltas| - 1], deltas[|deltas| - 1];
      FirstFourInOrder(front);
      assert deltas == front + [last];
    }
  }

  /** Of several most frequent ones the histogram yields the one that occurs first last. */
  lemma {:induction false} TiesGoToTheLast(deltas: seq<int>) returns (j: nat)
    requires deltas != []
    ensures
      var f := FirstFour(deltas);
      && j < |f| && Chosen(deltas) == (if Count(deltas, f[j]) == 1 then 0x10000000 else f[j])
      && (forall k :: 0 <= k < j ==> Count(deltas, f[k]) <= Count(deltas, f[j]))
      && (forall k :: j < k < |f| ==> Count(deltas, f[k]) < Count(deltas, f[j]))
  {
    hide FirstFour, Count;
    j := LastMostAt(deltas, FirstFour(deltas));
  }

  lemma {:induction false} LastMostAt(deltas: seq<int>, among: seq<int>) returns (j: nat)
    requires among != []
    ensures j < |among| && among[j] == LastMost(deltas, among)
    ensures forall k :: 0 <= k < j ==> Count(deltas, among[k]) <= Count(deltas, among[j])
    ensures forall k :: j < k < |among| ==> Count(deltas, among[k]) < Count(deltas, among[j])
  {
    hide Count;
    j := |among| - 1;
    if |among| > 1 {
      var front := among[..|among| - 1];
      var i := LastMostAt(deltas, front);
      if Count(deltas, among[|among| - 1]) < Count(deltas, front[i]) {
        j := i;
      }
    }
  }

  /**
   What the choice should be: random exactly when every difference occurs once, otherwise a most frequent
   difference; 0 when there are no differences.
   */
  predicate RightChoice(d: seq<int>, inc: int) {
    if d == [] then inc == 0
    else if forall x :: x in d ==> Count(d, x) == 1 then inc == RANDOM_INCREMENT
    else inc != RANDOM_INCREMENT && inc in d && forall x :: x in d ==> Count(d, x) <= Count(d, inc)
  }

  /** No difference is more frequent than all of the first four distinct ones. */
  predicate FirstFourDominate(d: seq<int>) {
    forall x :: x in d ==> NotAboveFirst(d, x)
  }

  /** The difference occurs at most as often as one of the first four distinct ones. */
  predicate NotAboveFirst(d: seq<int>, x: int) {
    exists f :: f in FirstFour(d) && Count(d, x) <= Count(d, f)
  }

  lemma {:induction false} DominatedByMost(d: seq<int>)
    requires d != []
    ensures
      var m := LastMost(d, FirstFour(d));
      m in d && Count(d, m) > 0 && (FirstFourDominate(d) <==> forall x :: x in d ==> Count(d, x) <= Count(d, m))
  {
    hide FirstFour, Count, NotAboveFirst;
    var m := LastMost(d, FirstFour(d));
    LastMostIsMost(d, FirstFour(d));
    FirstFourOccur(d);
    OccursMeansCounted(d, m);
    forall x ensures NotAboveFirst(d, x) <==> Count(d, x) <= Count(d, m) {
      AboveFirst(d, x, m);
    }
  }

  lemma {:induction false} AboveFirst(d: seq<int>, x: int, m: int)
    requires m in FirstFour(d) && forall f :: f in FirstFour(d) ==> Count(d, f) <= Count(d, m)
    ensures NotAboveFirst(d, x) <==> Count(d, x) <= Count(d, m)
  {
    hide FirstFour, Count;
    if NotAboveFirst(d, x) {
      var f :| f in FirstFour(d) && Count(d, x) <= Count(d, f);
    }
  }

  /**
   For any number of ports the choice is right exactly when no later difference beats the first four
   distinct ones.
   */
  lemma {:induction false} RightIffFirstFourDominate(ports: seq<PortNumber>)
    ensures RightChoice(Deltas(ports), Chosen(Deltas(ports))) <==> FirstFourDominate(Deltas(ports))
  {
    hide FirstFour, Count, Deltas, LastMost, FirstFourDominate;
    var d := Deltas(ports);
    if d == [] {
      assert FirstFourDominate([]) by {
        NothingDominated();
      }
    } else {
      DominatedByMost(d);
      DeltasInRange(ports);
      var m := LastMost(d, FirstFour(d));
      forall x | x in d ensures Count(d, x) > 0 {
        OccursMeansCounted(d, x);
      }
    }
  }

  lemma NothingDominated()
    ensures FirstFourDominate([])
  {
  }

  /** With at most four distinct differences the choice is right. */
  lemma {:induction false} MostFrequentChosen(ports: seq<PortNumber>, all: set<int>)
    requires (forall d :: d in Deltas(ports) ==> d in all) && |all| <= SLOTS
    ensures RightChoice(Deltas(ports), Chosen(Deltas(ports)))
  {
    hide RightChoice, FirstFour, Count;
    var d := Deltas(ports);
    FirstFourComplete(d, all);
    forall x | x in d ensures NotAboveFirst(d, x) {
      assert x in FirstFour(d);
    }
    RightIffFirstFourDominate(ports);
  }

  /** The only caller passes four samples; up to five give no more than four differences. */
  lemma {:induction false} FewSamplesSuffice(ports: seq<PortNumber>)
    requires |ports| <= 5
    ensures RightChoice(Deltas(ports), Chosen(Deltas(ports)))
  {
    var all := set d | d in Deltas(ports);
    SetOfFew(Deltas(ports));
    MostFrequentChosen(ports, all);
  }

  lemma {:induction false} SetOfFew(d: seq<int>)
    ensures |set x | x in d| <= |d|
  {
    if d != [] {
      SetOfFew(d[1..]);
      assert (set x | x in d) == (set x | x in d[1..]) + {d[0]};
    }
  }

  /** Up to four distinct differences, each once, all get a slot. */
  lemma {:induction false} DistinctFill(deltas: seq<int>)
    requires |deltas| <= SLOTS && forall i, j :: 0 <= i < j < |deltas| ==> deltas[i] != deltas[j]
    ensures FirstFour(deltas) == deltas && forall x :: x in deltas ==> Count(deltas, x) == 1
  {
    if deltas != [] {
      var front, last := deltas[..|deltas| - 1], deltas[|deltas| - 1];
      DistinctFill(front);
      assert deltas == front + [last];
      CountAfter(front, last);
      OccursMeansCounted(front, last);
    }
  }

  /**
   A fifth difference is overlooked: when four others come before it, it may occur any number of times
   and be the most frequent one, but the choice is random.
   */
  lemma {:induction false} FifthOverlooked(four: seq<int>, e: int, n: nat)
    requires |four| == SLOTS && e !in four && forall i, j :: 0 <= i < j < |four| ==> four[i] != four[j]
    ensures
      var deltas := four + seq(n, _ => e);
      Count(deltas, e) == n && FirstFour(deltas) == four && Chosen(deltas) == RANDOM_INCREMENT
      && (forall x :: x in four ==> Count(deltas, x) == 1) && (n >= 2 ==> !RightChoice(deltas, Chosen(deltas)))
  {
    hide FirstFour, Count, LastMost;
    var deltas := four + seq(n, _ => e);
    if n == 0 {
      DistinctFill(four);
      OccursMeansCounted(four, e);
      assert deltas == four;
    } else {
      FifthOverlooked(four, e, n - 1);
      assert deltas == four + seq(n - 1, _ => e) + [e];
      CountAfter(four + seq(n - 1, _ => e), e);
    }
    LastMostIsMost(deltas, four);
    OccursMeansCounted(deltas, e);
  }

  // --------------------------------------------------------------------------- Prediction

  /** The port `XPredict` announces, from the one it has just observed. */
  function Predicted(observed: PortNumber, increment: int): PortNumber {
    var port: int := observed;
    if increment != RANDOM_INCREMENT then (port + increment) % PORTS else (port + 1) % PORTS
  }

  /** The ports of a NAT that moves on by `delta` for each connection, wrapping around. */
  predicate Constant(ports: seq<PortNumber>, delta: PortNumber) {
    forall d :: d in Deltas(ports) ==> d == delta
  }

  lemma {:induction false} ConstantChosen(ports: seq<PortNumber>, delta: PortNumber)
    requires Constant(ports, delta)
    ensures Chosen(Deltas(ports)) == if |ports| <= 1 then 0 else if |ports| == 2 then RANDOM_INCREMENT else delta
  {
    var d := Deltas(ports);
    if |ports| >= 2 {
      forall i | 0 <= i < |d| ensures d[i] == delta {
        assert d[i] in d;
      }
      AllEqual(d, delta);
    }
  }

  lemma Residues(here: PortNumber, a: PortNumber, b: PortNumber)
    ensures var p: int := here; (p + a) % PORTS == (p + b) % PORTS <==> a == b
  {
  }

  /**
   For a NAT with a constant difference the prediction is the true next port, across wrap-around, from
   three samples on. With two samples it is right only for difference 1, with fewer only for 0.
   */
  lemma {:induction false} PredictionIsTrue(ports: seq<PortNumber>, delta: PortNumber, observed: PortNumber)
    requires Constant(ports, delta)
    ensures
      var here: int := observed;
      Predicted(observed, Chosen(Deltas(ports))) == (here + delta) % PORTS <==>
      |ports| >= 3 || (|ports| == 2 && delta == 1) || (|ports| <= 1 && delta == 0)
  {
    hide Deltas, Chosen, Constant;
    ConstantChosen(ports, delta);
    Residues(observed, 1, delta);
    Residues(observed, 0, delta);
  }

  lemma {:induction false} AllEqual(deltas: seq<int>, d: int)
    requires deltas != [] && forall i :: 0 <= i < |deltas| ==> deltas[i] == d
    ensures Count(deltas, d) == |deltas| && FirstFour(deltas) == [d]
  {
    assert FirstFour([]) == [] && Count([], d) == 0;
    hide FirstFour, Count;
    var front := deltas[..|deltas| - 1];
    assert deltas == front + [d];
    CountAfter(front, d);
    if front != [] {
      AllEqual(front, d);
    }
  }
}
