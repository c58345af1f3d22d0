/** The names of expert weights in a state dict, and what the conversion's substring tests make of them. */
module ExpertKeys {
  import opened Search
  import opened Delinearize

  const EXPERTS := ".feed_forward.experts"

  function Infix(p: Projection): string {
    match p
    case Gate => ".gate_projs"
    case Up => ".up_projs"
    case Down => ".down_projs"
  }

  predicate Has(key: string, part: string) {
    FirstFrom(key, 0, part) <= |key|
  }

  /** `key.split(part)[0]`. */
  function Before(key: string, part: string): string
    requires Has(key, part)
  {
    key[..FirstFrom(key, 0, part)]
  }

  /** What the loop does with a key: yield it as it is, pass over it, fuse, stack, delete, or nothing. */
  datatype Branch = PassOn | PassOver | Fuse(prefix: string) | StackDown(prefix: string) | Delete | Nothing

  /** The substring tests, in their order. */
  function BranchOf(key: string): Branch {
    if !Has(key, EXPERTS + ".") then PassOn
    else if Has(key, EXPERTS + Infix(Gate)) then PassOver
    else if Has(key, EXPERTS + Infix(Up)) then
      if Has(key, EXPERTS + Infix(Up) + ".0.") && Has(key, Infix(Up) + ".0.") then Fuse(Before(key, Infix(Up) + ".0."))
      else Delete
    else if Has(key, EXPERTS + Infix(Down)) then
      if Has(key, EXPERTS + Infix(Down) + ".0.") && Has(key, Infix(Down) + ".0.")
      then StackDown(Before(key, Infix(Down) + ".0."))
      else Delete
    else Nothing
  }

  // ---- decimal numbers ----

  function Digit(d: nat): char
    requires d < 10
  {
    '0' + d as char
  }

  function Digits(n: nat): (s: string)
    ensures s != "" && forall k :: 0 <= k < |s| ==> '0' <= s[k] <= '9'
  {
    if n < 10 then [Digit(n)] else Digits(n / 10) + [Digit(n % 10)]
  }

  function ValueOf(s: string): int {
    if s == "" then 0 else 10 * ValueOf(s[..|s| - 1]) + (s[|s| - 1] as int - '0' as int)
  }

  lemma {:induction false} DigitsRead(n: nat)
    ensures ValueOf(Digits(n)) == n
    decreases n
  {
    if n >= 10 {
      DigitsRead(n / 10);
      assert Digits(n)[..|Digits(n)| - 1] == Digits(n / 10);
    }
  }

  /** Only the number zero starts with a zero. */
  lemma {:induction false} LeadingZero(n: nat)
    ensures Digits(n)[0] == '0' <==> n == 0
    ensures n == 0 ==> Digits(n) == "0"
    decreases n
  {
    if n >= 10 {
      LeadingZero(n / 10);
    }
  }

  // ---- the name of a weight ----

  function Tail(p: Projection, i: nat): string {
    EXPERTS + Infix(p) + ("." + Digits(i) + ".weight")
  }

  /** f"{layer}.feed_forward.experts.up_projs.{i}.weight" and the like. */
  function WeightKey(layer: string, p: Projection, i: nat): string {
    layer + Tail(p, i)
  }

  function Marked(p: Projection): char {
    match p case Gate => 'g' case Up => 'u' case Down => 'd'
  }

  /** The components of a tail start with f, e, the projection's letter, a digit and w. */
  lemma TailDots(p: Projection, i: nat, k: nat)
    requires k + 1 < |Tail(p, i)| && Tail(p, i)[k] == '.'
    ensures Tail(p, i)[k + 1] == 'f' <==> k == 0
    ensures Tail(p, i)[k + 1] in {'g', 'u', 'd'} <==> k == |EXPERTS|
    ensures k == |EXPERTS| ==> Tail(p, i)[k + 1] == Marked(p)
  {
    var head, rest := EXPERTS + Infix(p), "." + Digits(i) + ".weight";
    HeadDots(p);
    assert Tail(p, i) == head + rest;
    if k >= |head| {
      RestDots(i, k - |head|);
      assert rest[k - |head|] == '.' && rest[k - |head| + 1] == Tail(p, i)[k + 1];
    } else {
      assert head[k] == '.';
      assert k + 1 < |head| ==> head[k + 1] == Tail(p, i)[k + 1];
    }
  }

  lemma HeadDots(p: Projection)
    ensures var head := EXPERTS + Infix(p);
            && |head| > |EXPERTS| + 1 == 22
            && (forall k :: 0 <= k < |head| && head[k] == '.' ==> k == 0 || k == 13 || k == 21)
            && head[1] == 'f' && head[14] == 'e' && head[21] == '.' && head[22] == Marked(p)
  {
    assert forall k :: 0 <= k < |EXPERTS| && EXPERTS[k] == '.' ==> k == 0 || k == 13;
    assert forall k :: 0 <= k < |Infix(p)| && Infix(p)[k] == '.' ==> k == 0;
    assert Infix(p)[0] == '.' && Infix(p)[1] == Marked(p);
  }

  lemma RestDots(i: nat, k: nat)
    requires var rest := "." + Digits(i) + ".weight"; k + 1 < |rest| && rest[k] == '.'
    ensures ("." + Digits(i) + ".weight")[k + 1] !in {'f', 'g', 'u', 'd'}
  {
    var n, rest := |Digits(i)|, "." + Digits(i) + ".weight";
    if k < n {
      assert rest[k + 1] == Digits(i)[k];
    } else {
      assert rest[k] == ".weight"[k - n - 1];
      assert k == n + 1;
    }
  }

  lemma TailStarts(p: Projection, i: nat)
    ensures EXPERTS + Infix(p) + "." <= Tail(p, i) && Tail(p, i)[0] == '.'
    ensures Tail(p, i)[|EXPERTS + Infix(p)| + 1..] == Digits(i) + ".weight"
    ensures Tail(p, i) == EXPERTS + Infix(p) + ("." + Digits(i) + ".weight")
  {
    assert Tail(p, i) == EXPERTS + Infix(p) + "." + (Digits(i) + ".weight");
  }

  /** Which of the markers a tail starts with. */
  lemma TailMarkers(p: Projection, i: nat, q: Projection)
    ensures EXPERTS + "." <= Tail(p, i)
    ensures EXPERTS + Infix(q) <= Tail(p, i) <==> p == q
    ensures EXPERTS + Infix(q) + ".0." <= Tail(p, i) <==> p == q && i == 0
  {
    TailStarts(p, i);
    HeadDots(p);
    HeadDots(q);
    var tail, own, head := Tail(p, i), EXPERTS + Infix(p), EXPERTS + Infix(q);
    hide Tail, Infix;
    assert tail[..|own| + 1] == own + ".";
    assert tail[22] == Marked(p) && tail[21] == '.' && tail[..21] == EXPERTS;
    if head <= tail {
      assert head[22] == tail[22];
    }
    if p == q {
      TailZero(own, tail, i);
    } else if head + ".0." <= tail {
      assert (head + ".0.")[22] == head[22];
    }
  }

  lemma TailZero(head: string, tail: string, i: nat)
    requires tail == head + ("." + Digits(i) + ".weight")
    ensures head + ".0." <= tail <==> i == 0
  {
    LeadingZero(i);
    assert i == 0 ==> Digits(i) + ".weight" == "0." + "weight";
    assert tail[|head| + 1] == Digits(i)[0];
    if head + ".0." <= tail {
      assert tail[|head| + 1] == (head + ".0.")[|head| + 1] == '0';
    }
    if i == 0 {
      assert "." + Digits(i) + ".weight" == "." + ("0." + "weight") == ".0." + "weight";
      assert tail == head + ".0." + "weight";
    }
  }

  // ---- where a marker can stand ----

  lemma PairOfOccurrence(s: string, q: int, m: string, j: nat)
    requires OccursAt(s, q, m) && j + 1 < |m|
    ensures q + j + 1 < |s| && s[q + j] == m[j] && s[q + j + 1] == m[j + 1]
  {
    assert s[q..q + |m|][j] == m[j] && s[q..q + |m|][j + 1] == m[j + 1];
  }

  /** No component but the first starts with f. */
  predicate StartsLikeMarker(m: string) {
    |m| >= 2 && m[0] == '.' && forall j :: 1 <= j < |m| - 1 && m[j] == '.' ==> m[j + 1] != 'f'
  }

  /** A marker stands in the layer, up to the dot after it, or in the tail. */
  lemma LayerOrTail(layer: string, p: Projection, i: nat, m: string, at: nat)
    requires StartsLikeMarker(m) && OccursAt(WeightKey(layer, p, i), at, m)
    ensures at >= |layer| || OccursAt(layer + ".", at, m)
  {
    var key := WeightKey(layer, p, i);
    TailStarts(p, i);
    FirstTwo(p, i);
    hide Tail;
    assert key[|layer|] == Tail(p, i)[0] == '.' && key[|layer| + 1] == Tail(p, i)[1] == 'f';
    if at + |m| <= |layer| + 1 {
      assert key[..|layer| + 1] == layer + ".";
      OccursInPrefix(key, |layer| + 1, at, m);
    } else if at < |layer| {
      PairOfOccurrence(key, at, m, |layer| - at);
    }
  }

  lemma FirstTwo(p: Projection, i: nat)
    ensures |Tail(p, i)| > 2 && Tail(p, i)[0] == '.' && Tail(p, i)[1] == 'f'
  {
  }

  /** A marker that starts with f stands at the start of the tail or in the layer. */
  lemma MarkerPlace(layer: string, p: Projection, i: nat, m: string)
    requires StartsLikeMarker(m) && m[1] == 'f'
    ensures Has(WeightKey(layer, p, i), m) <==> m <= Tail(p, i) || Has(layer + ".", m)
  {
    hide Tail;
    var key := WeightKey(layer, p, i);
    assert key[|layer|..] == Tail(p, i);
    OccursInSuffix(key, |layer|, |layer|, m);
    if Has(layer + ".", m) {
      HasInPrefix(layer, p, i, m);
    }
    if Has(key, m) {
      var at := FirstFrom(key, 0, m);
      LayerOrTail(layer, p, i, m, at);
      if at >= |layer| {
        InTail(layer, p, i, m, at);
        TailDots(p, i, at - |layer|);
      }
    }
  }

  lemma InTail(layer: string, p: Projection, i: nat, m: string, at: nat)
    requires |m| >= 2 && OccursAt(WeightKey(layer, p, i), at, m) && at >= |layer|
    ensures at - |layer| + 1 < |Tail(p, i)|
    ensures Tail(p, i)[at - |layer|] == m[0] && Tail(p, i)[at - |layer| + 1] == m[1]
  {
    hide Tail;
    PairOfOccurrence(WeightKey(layer, p, i), at, m, 0);
  }

  lemma HasInPrefix(layer: string, p: Projection, i: nat, m: string)
    requires Has(layer + ".", m)
    ensures Has(WeightKey(layer, p, i), m)
    ensures FirstFrom(WeightKey(layer, p, i), 0, m) + |m| <= |layer| + 1
  {
    DotAfterLayer(layer, p, i);
    hide WeightKey, FirstFrom;
    InPrefix(WeightKey(layer, p, i), |layer| + 1, m);
  }

  lemma DotAfterLayer(layer: string, p: Projection, i: nat)
    ensures |WeightKey(layer, p, i)| > |layer| && WeightKey(layer, p, i)[..|layer| + 1] == layer + "."
  {
    FirstTwo(p, i);
    hide Tail;
  }

  lemma InPrefix(key: string, n: nat, m: string)
    requires n <= |key| && Has(key[..n], m)
    ensures Has(key, m) && FirstFrom(key, 0, m) + |m| <= n
  {
    OccursInPrefix(key, n, FirstFrom(key[..n], 0, m), m);
  }

  /** The split marker of a projection stands after the experts of expert 0, or in the layer. */
  lemma SplitPlace(layer: string, p: Projection, i: nat, q: Projection)
    requires !Has(layer + ".", Infix(q) + ".0.")
    ensures Has(WeightKey(layer, p, i), Infix(q) + ".0.") <==> p == q && i == 0
    ensures p == q && i == 0 ==> Before(WeightKey(layer, p, i), Infix(q) + ".0.") == layer + EXPERTS
  {
    var key, m := WeightKey(layer, p, i), Infix(q) + ".0.";
    SplitMarker(q);
    KeyParts(layer, p, i);
    TailMarkers(p, i, q);
    TailStarts(p, i);
    hide Tail, Infix, Has, StartsLikeMarker;
    forall at: nat | OccursAt(key, at, m) ensures at == |layer + EXPERTS| && p == q && i == 0 {
      AtExperts(layer, p, i, q, at);
    }
    if p == q && i == 0 {
      assert EXPERTS + Infix(q) + ".0." == EXPERTS + m;
      WithoutExperts(Tail(p, i), m);
      OnlyPlace(layer + EXPERTS, Tail(p, i)[|EXPERTS|..], m);
    } else {
      NoPlace(key, m);
    }
  }

  lemma NoPlace(key: string, m: string)
    requires forall at: nat :: !OccursAt(key, at, m)
    ensures !Has(key, m)
  {
  }

  lemma AtExperts(layer: string, p: Projection, i: nat, q: Projection, at: nat)
    requires !Has(layer + ".", Infix(q) + ".0.") && OccursAt(WeightKey(layer, p, i), at, Infix(q) + ".0.")
    ensures at == |layer + EXPERTS| && p == q && i == 0
  {
    hide Tail, Has, WeightKey;
    AfterExperts(layer, p, i, q, at);
    TailMarkers(p, i, q);
    ZeroAfterExperts(layer, p, i, Infix(q) + ".0.");
    assert EXPERTS + (Infix(q) + ".0.") == EXPERTS + Infix(q) + ".0.";
  }

  lemma AfterExperts(layer: string, p: Projection, i: nat, q: Projection, at: nat)
    requires !Has(layer + ".", Infix(q) + ".0.") && OccursAt(WeightKey(layer, p, i), at, Infix(q) + ".0.")
    ensures at == |layer + EXPERTS| && p == q
  {
    var m := Infix(q) + ".0.";
    SplitMarker(q);
    NotInLayer(layer, p, i, m, at);
    InTail(layer, p, i, m, at);
    hide Tail, WeightKey, StartsLikeMarker, Has, Infix;
    TailDots(p, i, at - |layer|);
    assert Marked(p) == Marked(q);
  }

  lemma NotInLayer(layer: string, p: Projection, i: nat, m: string, at: nat)
    requires StartsLikeMarker(m) && !Has(layer + ".", m) && OccursAt(WeightKey(layer, p, i), at, m)
    ensures at >= |layer|
  {
    hide WeightKey;
    LayerOrTail(layer, p, i, m, at);
  }

  lemma ZeroAfterExperts(layer: string, p: Projection, i: nat, m: string)
    requires OccursAt(WeightKey(layer, p, i), |layer + EXPERTS|, m)
    ensures EXPERTS + m <= Tail(p, i)
  {
    KeyParts(layer, p, i);
    hide Tail, WeightKey;
    HeadOfTail(layer + EXPERTS, Tail(p, i)[|EXPERTS|..], m);
    WithExperts(Tail(p, i), m);
  }

  lemma HeadOfTail(before: string, after: string, m: string)
    requires OccursAt(before + after, |before|, m)
    ensures m <= after
  {
    assert (before + after)[|before|..] == after;
    OccursInSuffix(before + after, |before|, |before|, m);
  }

  lemma WithExperts(tail: string, m: string)
    requires EXPERTS <= tail && m <= tail[|EXPERTS|..]
    ensures EXPERTS + m <= tail
  {
    assert tail[..|EXPERTS|] == EXPERTS && tail == EXPERTS + tail[|EXPERTS|..];
  }

  lemma WithoutExperts(tail: string, m: string)
    requires EXPERTS + m <= tail
    ensures m <= tail[|EXPERTS|..]
  {
    assert tail[..|EXPERTS + m|] == EXPERTS + m;
    assert tail[|EXPERTS|..][..|m|] == m;
  }

  lemma SplitMarker(q: Projection)
    ensures var m := Infix(q) + ".0."; StartsLikeMarker(m) && m[1] == Marked(q) && m[0] == '.'
  {
    assert forall k :: 0 <= k < |Infix(q)| && Infix(q)[k] == '.' ==> k == 0;
  }

  lemma ExpertsMarker(q: Projection)
    ensures StartsLikeMarker(EXPERTS + Infix(q)) && (EXPERTS + Infix(q))[1] == 'f'
    ensures StartsLikeMarker(EXPERTS + Infix(q) + ".0.") && (EXPERTS + Infix(q) + ".0.")[1] == 'f'
  {
    HeadDots(q);
  }

  lemma OnlyPlace(before: string, after: string, m: string)
    requires m <= after && forall q: nat :: OccursAt(before + after, q, m) ==> q == |before|
    ensures Has(before + after, m) && Before(before + after, m) == before
  {
    assert (before + after)[|before|..] == after;
    OccursInSuffix(before + after, |before|, |before|, m);
    assert (before + after)[..|before|] == before;
  }

  lemma KeyParts(layer: string, p: Projection, i: nat)
    ensures WeightKey(layer, p, i) == (layer + EXPERTS) + Tail(p, i)[|EXPERTS|..]
    ensures EXPERTS <= Tail(p, i)
  {
    var rest := Infix(p) + ("." + Digits(i) + ".weight");
    hide Infix, Digits;
    assert Tail(p, i) == EXPERTS + rest;
    assert Tail(p, i)[|EXPERTS|..] == rest;
    assert layer + (EXPERTS + rest) == (layer + EXPERTS) + rest;
  }

  // ---- how names are read ----

  /** What the loop is meant to do with a weight. */
  function Meant(layer: string, p: Projection, i: nat): Branch {
    match p
    case Gate => PassOver
    case Up => if i == 0 then Fuse(layer + EXPERTS) else Delete
    case Down => if i == 0 then StackDown(layer + EXPERTS) else Delete
  }

  /** The layer's name, up to the dot after it, has none of the markers of an earlier test or split. */
  predicate PlainLayer(layer: string) {
    && !Has(layer + ".", EXPERTS + Infix(Gate)) && !Has(layer + ".", EXPERTS + Infix(Up))
    && !Has(layer + ".", Infix(Up) + ".0.") && !Has(layer + ".", Infix(Down) + ".0.")
  }

  /** The tests read every weight's name of a layer as it was made - projection, prefix, and whether it is expert 0 -
      exactly when the layer has none of the four markers. */
  lemma NamesAreRead(layer: string)
    ensures (forall p, i: nat :: BranchOf(WeightKey(layer, p, i)) == Meant(layer, p, i)) <==> PlainLayer(layer)
  {
    hide BranchOf, Meant, PlainLayer, WeightKey;
    if PlainLayer(layer) {
      forall p, i: nat ensures BranchOf(WeightKey(layer, p, i)) == Meant(layer, p, i) {
        PlainNamesAreRead(layer, p, i);
      }
    } else {
      var p := Misread(layer);
      assert BranchOf(WeightKey(layer, p, 0)) != Meant(layer, p, 0);
    }
  }

  lemma PlainNamesAreRead(layer: string, p: Projection, i: nat)
    requires PlainLayer(layer)
    ensures BranchOf(WeightKey(layer, p, i)) == Meant(layer, p, i)
  {
    hide Has, Before, WeightKey;
    HasExperts(layer, p, i);
    HasInfix(layer, p, i, Gate);
    HasInfix(layer, p, i, Up);
    HasInfix(layer, p, i, Down);
    if p != Gate {
      SplitPlace(layer, p, i, p);
    }
  }

  lemma HasExperts(layer: string, p: Projection, i: nat)
    ensures Has(WeightKey(layer, p, i), EXPERTS + ".")
  {
    TailMarkers(p, i, p);
    hide Tail;
    assert WeightKey(layer, p, i)[|layer|..] == Tail(p, i);
    OccursInSuffix(WeightKey(layer, p, i), |layer|, |layer|, EXPERTS + ".");
  }

  lemma HasInfix(layer: string, p: Projection, i: nat, q: Projection)
    ensures Has(WeightKey(layer, p, i), EXPERTS + Infix(q)) <==> p == q || Has(layer + ".", EXPERTS + Infix(q))
    ensures p == q && i == 0 ==> Has(WeightKey(layer, p, i), EXPERTS + Infix(q) + ".0.")
  {
    TailMarkers(p, i, q);
    ExpertsMarker(q);
    MarkerPlace(layer, p, i, EXPERTS + Infix(q));
    MarkerPlace(layer, p, i, EXPERTS + Infix(q) + ".0.");
  }

  /** With a marker in the layer, expert 0 of some projection is misread. */
  lemma Misread(layer: string) returns (p: Projection)
    requires !PlainLayer(layer)
    ensures BranchOf(WeightKey(layer, p, 0)) != Meant(layer, p, 0)
  {
    hide Before, WeightKey, Has;
    if Has(layer + ".", EXPERTS + Infix(Gate)) {
      p := Up;
      HasExperts(layer, p, 0);
      HasInfix(layer, p, 0, Gate);
    } else if Has(layer + ".", EXPERTS + Infix(Up)) {
      p := Down;
      HasExperts(layer, p, 0);
      HasInfix(layer, p, 0, Up);
    } else {
      p := if Has(layer + ".", Infix(Up) + ".0.") then Up else Down;
      SplitTooEarly(layer, p);
    }
  }

  lemma SplitTooEarly(layer: string, p: Projection)
    requires Has(layer + ".", Infix(p) + ".0.")
    ensures Has(WeightKey(layer, p, 0), Infix(p) + ".0.")
    ensures Before(WeightKey(layer, p, 0), Infix(p) + ".0.") != layer + EXPERTS
  {
    HasInPrefix(layer, p, 0, Infix(p) + ".0.");
  }

  /** Different weights have different names. */
  lemma NamesDiffer(layer: string, p: Projection, i: nat, layer': string, p': Projection, i': nat)
    requires WeightKey(layer, p, i) == WeightKey(layer', p', i')
    ensures layer == layer' && p == p' && i == i'
  {
    if |layer| <= |layer'| {
      SamePlace(layer, p, i, layer', p', i');
    } else {
      SamePlace(layer', p', i', layer, p, i);
    }
    assert WeightKey(layer, p, i)[..|layer|] == layer && WeightKey(layer', p', i')[..|layer'|] == layer';
    assert WeightKey(layer, p, i)[|layer|..] == Tail(p, i) && WeightKey(layer', p', i')[|layer|..] == Tail(p', i');
    TailsDiffer(p, i, p', i');
  }

  /** The tail starts with the last component that starts with f. */
  lemma SamePlace(layer: string, p: Projection, i: nat, layer': string, p': Projection, i': nat)
    requires WeightKey(layer, p, i) == WeightKey(layer', p', i') && |layer| <= |layer'|
    ensures |layer| == |layer'|
  {
    FirstTwo(p', i');
    hide Tail;
    var key, k := WeightKey(layer, p, i), |layer'| - |layer|;
    assert key[|layer'|] == '.' && key[|layer'| + 1] == 'f';
    assert Tail(p, i)[k] == '.' && Tail(p, i)[k + 1] == 'f';
    TailDots(p, i, k);
  }

  lemma TailsDiffer(p: Projection, i: nat, p': Projection, i': nat)
    requires Tail(p, i) == Tail(p', i')
    ensures p == p' && i == i'
  {
    TailMarkers(p, i, p);
    TailMarkers(p', i', p);
    TailStarts(p, i);
    TailStarts(p', i');
    var a, b := Digits(i) + ".weight", Digits(i') + ".weight";
    assert a[..|a| - 7] == Digits(i) && b[..|b| - 7] == Digits(i');
    DigitsRead(i);
    DigitsRead(i');
  }

  /** The name of each weight. */
  lemma WeightNames(layer: string, i: nat)
    ensures WeightKey(layer, Gate, i) == layer + ".feed_forward.experts.gate_projs" + ("." + Digits(i) + ".weight")
    ensures WeightKey(layer, Up, i) == layer + ".feed_forward.experts.up_projs" + ("." + Digits(i) + ".weight")
    ensures WeightKey(layer, Down, i) == layer + ".feed_forward.experts.down_projs" + ("." + Digits(i) + ".weight")
  {
    PartNames();
    hide Infix, Digits;
    NameFrom(layer, Gate, i, ".feed_forward.experts.gate_projs");
    NameFrom(layer, Up, i, ".feed_forward.experts.up_projs");
    NameFrom(layer, Down, i, ".feed_forward.experts.down_projs");
  }

  lemma NameFrom(layer: string, p: Projection, i: nat, part: string)
    requires part == EXPERTS + Infix(p)
    ensures WeightKey(layer, p, i) == layer + part + ("." + Digits(i) + ".weight")
  {
    hide Infix, Digits;
  }

  lemma PartNames()
    ensures EXPERTS + Infix(Gate) == ".feed_forward.experts.gate_projs"
    ensures EXPERTS + Infix(Up) == ".feed_forward.experts.up_projs"
    ensures EXPERTS + Infix(Down) == ".feed_forward.experts.down_projs"
  {
  }

  /** A key is yielded as it is exactly when it is not under the experts. */
  lemma PassedOn(key: string)
    ensures BranchOf(key) == PassOn <==> forall q :: !OccursAt(key, q, ".feed_forward.experts.")
  {
    var part := EXPERTS + ".";
    assert part == ".feed_forward.experts.";
    var k := FirstFrom(key, 0, part);
    assert k <= |key| ==> OccursAt(key, k, part);
  }

  /** A key under the experts that is none of the three projections is not yielded. */
  lemma OthersAreLost(key: string, at: nat)
    requires OccursAt(key, at, ".feed_forward.experts.")
    ensures BranchOf(key) == Nothing
            <==> forall q :: !OccursAt(key, q, ".feed_forward.experts.gate_projs")
                             && !OccursAt(key, q, ".feed_forward.experts.up_projs")
                             && !OccursAt(key, q, ".feed_forward.experts.down_projs")
  {
    PassedOn(key);
    PartNames();
    hide BranchOf, Infix;
    HasMeans(key, EXPERTS + Infix(Gate));
    HasMeans(key, EXPERTS + Infix(Up));
    HasMeans(key, EXPERTS + Infix(Down));
    NothingMeans(key);
  }

  lemma HasMeans(key: string, part: string)
    ensures Has(key, part) <==> exists q :: OccursAt(key, q, part)
  {
    var k := FirstFrom(key, 0, part);
    assert k <= |key| ==> OccursAt(key, k, part);
  }

  lemma NothingMeans(key: string)
    requires BranchOf(key) != PassOn
    ensures BranchOf(key) == Nothing
            <==> !Has(key, EXPERTS + Infix(Gate)) && !Has(key, EXPERTS + Infix(Up)) && !Has(key, EXPERTS + Infix(Down))
  {
    hide Has, Infix, Before;
  }

  /** A key under the experts that is none of the three projections is not yielded. */
  lemma OtherKeysAreLost()
    ensures BranchOf(EXPERTS + ".x") == Nothing
  {
    var key := EXPERTS + ".x";
    assert key[..|EXPERTS| + 1] == EXPERTS + ".";
    assert OccursAt(key, 0, EXPERTS + ".");
  }
}
