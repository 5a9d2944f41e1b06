/** Classification of five cards into the ten poker categories (`Hand.hand`,
    `Hand.score`) and the order on classified hands (`Hand.__eq__`,
    `Hand.__lt__`), stated on card faces. */
module Ranking {
  import opened Outcomes
  import opened Seqs
  import opened Cards

  datatype Category =
    | HighCard | Pair | TwoPair | ThreeOfAKind | Straight
    | Flush | FullHouse | FourOfAKind | StraightFlush | RoyalFlush

  /** `Hand.values`: the category names, weakest first. */
  const Names: seq<string> := [
    "high card", "pair", "two pair", "three of a kind", "straight",
    "flush", "full house", "four of a kind", "straight flush", "royal flush"]

  function Ordinal(c: Category): nat {
    match c
    case HighCard => 0
    case Pair => 1
    case TwoPair => 2
    case ThreeOfAKind => 3
    case Straight => 4
    case Flush => 5
    case FullHouse => 6
    case FourOfAKind => 7
    case StraightFlush => 8
    case RoyalFlush => 9
  }

  /** The string `Hand.hand` returns. */
  function Name(c: Category): (r: string)
    ensures Ordinal(c) < |Names| && r in Names
  {
    Names[Ordinal(c)]
  }

  /** The position of the first occurrence of `x` in `s`, or |s|, like `tuple.index`
      (which raises instead of returning |s|). */
  function IndexOf(s: seq<string>, x: string): (i: nat)
    ensures i <= |s|
    ensures i < |s| ==> s[i] == x
    ensures forall j | 0 <= j < i :: s[j] != x
  {
    if s == [] then 0 else if s[0] == x then 0 else 1 + IndexOf(s[1..], x)
  }

  /** `Hand.score`: the index of the category's name in `Hand.values`. */
  function CategoryScore(c: Category): (i: nat)
    ensures i < |Names| && Names[i] == Name(c)
  {
    IndexOf(Names, Name(c))
  }

  /** No two categories share a name. */
  lemma NamesDistinct()
    ensures forall i, j | 0 <= i < j < |Names| :: Names[i] != Names[j]
  {
    forall i, j | 0 <= i < j < |Names| ensures Names[i] != Names[j] {
      assert |Names[i]| != |Names[j]| || Names[i][0] != Names[j][0];
    }
  }

  /** The names are distinct, so a category's score is its place in the order. */
  lemma CategoryScoreIsOrdinal(c: Category)
    ensures CategoryScore(c) == Ordinal(c)
    ensures forall d: Category :: Name(d) == Name(c) ==> d == c
  {
    NamesDistinct();
    var i, k := IndexOf(Names, Name(c)), Ordinal(c);
    assert Names[k] == Name(c);
    assert i <= k;
    assert Names[i] == Names[k];
    forall d: Category | Name(d) == Name(c) ensures d == c {
      assert Names[Ordinal(d)] == Names[Ordinal(c)];
    }
  }

  function FaceScore(f: Face): int { f.score }

  function FaceSuit(f: Face): Suit { f.suit }

  function Scores(faces: seq<Face>): seq<int> { Map(faces, FaceScore) }

  function Suits(faces: seq<Face>): seq<Suit> { Map(faces, FaceSuit) }

  /** The length of the leading run of equal values. */
  function LeadLength(s: seq<int>): (n: nat)
    requires s != []
    ensures 1 <= n <= |s|
  {
    if |s| == 1 || s[1] != s[0] then 1 else 1 + LeadLength(s[1..])
  }

  /** The group lengths `itertools.groupby` yields: maximal runs of equal
      consecutive values. */
  function Runs(s: seq<int>): seq<int>
    decreases |s|
  {
    if s == [] then [] else [LeadLength(s)] + Runs(s[LeadLength(s)..])
  }

  function Sum(s: seq<int>): int {
    if s == [] then 0 else s[0] + Sum(s[1..])
  }

  /** `is_straight` of `Hand.hand` on the ascending scores. */
  predicate IsStraight(s: seq<int>)
    requires |s| == 5
  {
    s == [0, 1, 2, 3, 12] || s == [s[0], s[0] + 1, s[0] + 2, s[0] + 3, s[0] + 4]
  }

  /** Every suit equals the first card's. */
  predicate IsFlush(faces: seq<Face>)
    requires faces != []
  {
    forall i | 1 <= i < |faces| :: faces[i].suit == faces[0].suit
  }

  /** The dictionary `Hand.hand` looks the sorted group lengths up in. */
  function Table(straight: bool): map<seq<int>, Category> {
    map[[1, 4] := FourOfAKind,
        [2, 3] := FullHouse,
        [1, 1, 3] := ThreeOfAKind,
        [1, 2, 2] := TwoPair,
        [1, 1, 1, 2] := Pair,
        [1, 1, 1, 1, 1] := if straight then Straight else HighCard]
  }

  /** `Hand.hand` on the five faces of a hand, in the hand's (ascending) order;
      None is the `KeyError` of a pattern the table lacks. */
  function Classify(faces: seq<Face>): (r: Option<Category>)
    requires |faces| == 5
    ensures (r.Some? && r.value in {RoyalFlush, StraightFlush, Flush}) <==> IsFlush(faces)
  {
    var s := Scores(faces);
    if IsFlush(faces) then
      if s == [8, 9, 10, 11, 12] then Some(RoyalFlush)
      else if IsStraight(s) then Some(StraightFlush)
      else Some(Flush)
    else
      var key := SortBy(Runs(s), Id);
      if key in Table(IsStraight(s)) then Some(Table(IsStraight(s))[key]) else None
  }

  // ---------------------------------------------------------------------
  // A reference classification that looks only at how often each rank
  // occurs and which suits occur, independent of the order of the cards.

  ghost predicate HasGroup(m: multiset<int>, k: nat) {
    exists r | r in m :: m[r] == k
  }

  ghost predicate HasTwoGroups(m: multiset<int>, k: nat) {
    exists r1, r2 | r1 in m && r2 in m :: r1 != r2 && m[r1] == k && m[r2] == k
  }

  function Consecutive(lo: int): multiset<int> {
    multiset{lo, lo + 1, lo + 2, lo + 3, lo + 4}
  }

  /** Five consecutive ranks, or A-2-3-4-5 with the Ace low. */
  ghost predicate StraightRanks(m: multiset<int>) {
    m == multiset{0, 1, 2, 3, 12} || exists lo :: m == Consecutive(lo)
  }

  ghost predicate OneSuit(suits: multiset<Suit>) {
    forall a, b | a in suits && b in suits :: a == b
  }

  ghost function ReferenceCategory(ranks: multiset<int>, suits: multiset<Suit>): Option<Category> {
    if OneSuit(suits) then
      if ranks == multiset{8, 9, 10, 11, 12} then Some(RoyalFlush)
      else if StraightRanks(ranks) then Some(StraightFlush)
      else Some(Flush)
    else GroupCategory(ranks, StraightRanks(ranks))
  }

  /** The category of a hand with mixed suits, by its largest groups of equal rank. */
  ghost function GroupCategory(ranks: multiset<int>, straight: bool): Option<Category> {
    if HasGroup(ranks, 5) then None
    else if HasGroup(ranks, 4) then Some(FourOfAKind)
    else if HasGroup(ranks, 3) && HasGroup(ranks, 2) then Some(FullHouse)
    else if HasGroup(ranks, 3) then Some(ThreeOfAKind)
    else if HasTwoGroups(ranks, 2) then Some(TwoPair)
    else if HasGroup(ranks, 2) then Some(Pair)
    else if straight then Some(Straight)
    else Some(HighCard)
  }

  // ---------------------------------------------------------------------
  // Runs of a sorted sequence and rank multiplicities.

  lemma {:induction false} LeadRun(s: seq<int>)
    requires s != []
    ensures forall i | 0 <= i < LeadLength(s) :: s[i] == s[0]
    ensures LeadLength(s) < |s| ==> s[LeadLength(s)] != s[0]
  {
    if !(|s| == 1 || s[1] != s[0]) {
      LeadRun(s[1..]);
    }
  }

  lemma {:induction false} ConstantCount(t: seq<int>, x: int)
    requires forall i | 0 <= i < |t| :: t[i] == x
    ensures multiset(t)[x] == |t|
    ensures forall r | r != x :: r !in multiset(t)
  {
    if t != [] {
      assert t == [t[0]] + t[1..];
      ConstantCount(t[1..], x);
    }
  }

  /** In a sorted sequence every value after the first run differs from the
      first value. */
  lemma AfterFirstRun(s: seq<int>)
    requires s != [] && SortedBy(s, Id)
    ensures s[0] !in multiset(s[LeadLength(s)..])
  {
    var n := LeadLength(s);
    LeadRun(s);
    forall i | n <= i < |s| ensures s[i] != s[0] {
      assert Id(s[0]) <= Id(s[n]) <= Id(s[i]);
    }
  }

  /** A prefix of `n` copies of `x` adds `n` to the count of `x` and nothing
      to the count of any other value. */
  lemma CountAfterPrefix(s: seq<int>, n: nat, x: int)
    requires n <= |s|
    requires forall i | 0 <= i < n :: s[i] == x
    ensures multiset(s)[x] == n + multiset(s[n..])[x]
    ensures forall r | r != x :: multiset(s)[r] == multiset(s[n..])[r]
  {
    var lead, rest := s[..n], s[n..];
    assert forall i | 0 <= i < |lead| :: lead[i] == x;
    ConstantCount(lead, x);
    assert s == lead + rest;
    assert multiset(s) == multiset(lead) + multiset(rest);
  }

  /** Splitting a sorted sequence after its first run: the first value occurs
      exactly LeadLength times and not at all in the rest. */
  lemma SplitFirstRun(s: seq<int>)
    requires s != [] && SortedBy(s, Id)
    ensures multiset(s)[s[0]] == LeadLength(s)
    ensures s[0] !in multiset(s[LeadLength(s)..])
    ensures SortedBy(s[LeadLength(s)..], Id)
    ensures forall r | r != s[0] :: multiset(s)[r] == multiset(s[LeadLength(s)..])[r]
  {
    var n := LeadLength(s);
    LeadRun(s);
    CountAfterPrefix(s, n, s[0]);
    SortedSuffix(s, Id, n);
    AfterFirstRun(s);
  }

  lemma {:induction false} GroupIff(s: seq<int>, k: nat)
    requires SortedBy(s, Id) && k >= 1
    ensures HasGroup(multiset(s), k) <==> k in Runs(s)
    decreases |s|
  {
    if s != [] {
      var n := LeadLength(s);
      var t := s[n..];
      SplitFirstRun(s);
      GroupIff(t, k);
      var m, m' := multiset(s), multiset(t);
      if HasGroup(m, k) {
        var r :| r in m && m[r] == k;
        if r != s[0] {
          assert r in m' && m'[r] == k;
        }
      }
      if k in Runs(s) && k != n {
        assert k in Runs(t);
        var r :| r in m' && m'[r] == k;
        assert r in m && m[r] == k;
      }
    }
  }

  lemma {:induction false} TwoGroupsIff(s: seq<int>, k: nat)
    requires SortedBy(s, Id) && k >= 1
    ensures HasTwoGroups(multiset(s), k) <==> multiset(Runs(s))[k] >= 2
    decreases |s|
  {
    if s != [] {
      var n := LeadLength(s);
      var t := s[n..];
      SplitFirstRun(s);
      GroupIff(t, k);
      TwoGroupsIff(t, k);
      TwoGroupsAfterRun(multiset(s), multiset(t), s[0], n, k);
      assert multiset(Runs(s)) == multiset{n} + multiset(Runs(t));
      assert k in Runs(t) <==> k in multiset(Runs(t));
    }
  }

  /** Counts that differ only in the value `x`, which occurs `n` times in
      `m` and not at all in `rest`: `m` has two values occurring `k` times
      exactly when `rest` has two, or `n` is `k` and `rest` has one. */
  lemma TwoGroupsAfterRun(m: multiset<int>, rest: multiset<int>, x: int, n: nat, k: nat)
    requires m[x] == n && x !in rest && k >= 1
    requires forall r | r != x :: m[r] == rest[r]
    ensures HasTwoGroups(m, k) <==> (n == k && HasGroup(rest, k)) || HasTwoGroups(rest, k)
  {
    if HasTwoGroups(m, k) {
      var r1, r2 :| r1 in m && r2 in m && r1 != r2 && m[r1] == k && m[r2] == k;
      if r1 == x {
        assert r2 in rest && rest[r2] == k;
      } else if r2 == x {
        assert r1 in rest && rest[r1] == k;
      } else {
        assert r1 in rest && r2 in rest;
      }
    }
    if n == k && HasGroup(rest, k) {
      var r :| r in rest && rest[r] == k;
      assert x in m && r in m && x != r;
    }
    if HasTwoGroups(rest, k) {
      var r1, r2 :| r1 in rest && r2 in rest && r1 != r2 && rest[r1] == k && rest[r2] == k;
      assert r1 in m && r2 in m;
    }
  }

  lemma {:induction false} RunsPositive(s: seq<int>)
    ensures forall i | 0 <= i < |Runs(s)| :: Runs(s)[i] >= 1
    ensures Sum(Runs(s)) == |s|
    decreases |s|
  {
    if s != [] {
      RunsPositive(s[LeadLength(s)..]);
    }
  }

  lemma {:induction false} SumInsert(x: int, s: seq<int>)
    ensures Sum(Insert(x, s, Id)) == x + Sum(s)
  {
    if !(s == [] || Id(x) <= Id(s[0])) {
      SumInsert(x, s[1..]);
    }
  }

  lemma {:induction false} SumSortBy(s: seq<int>)
    ensures Sum(SortBy(s, Id)) == Sum(s)
  {
    if s != [] {
      SumSortBy(s[1..]);
      SumInsert(s[0], SortBy(s[1..], Id));
    }
  }

  lemma {:induction false} SumAtLeastLength(v: seq<int>)
    requires forall i | 0 <= i < |v| :: v[i] >= 1
    ensures Sum(v) >= |v|
  {
    if v != [] {
      SumAtLeastLength(v[1..]);
    }
  }

  lemma SumOfShort(v: seq<int>)
    requires |v| <= 5
    ensures Sum(v) == (if |v| > 0 then v[0] else 0) + (if |v| > 1 then v[1] else 0)
      + (if |v| > 2 then v[2] else 0) + (if |v| > 3 then v[3] else 0) + (if |v| > 4 then v[4] else 0)
  {
    if v != [] {
      assert Sum(v) == v[0] + Sum(v[1..]);
      if |v| > 1 {
        assert Sum(v[1..]) == v[1] + Sum(v[2..]);
        if |v| > 2 {
          assert Sum(v[2..]) == v[2] + Sum(v[3..]);
          if |v| > 3 {
            assert Sum(v[3..]) == v[3] + Sum(v[4..]);
            if |v| > 4 {
              assert Sum(v[4..]) == v[4] + Sum(v[5..]);
            }
          }
        }
      }
    }
  }

  lemma PartitionInTwo(v: seq<int>)
    requires |v| == 2 && 1 <= v[0] <= v[1] && v[0] + v[1] == 5
    ensures v == [1, 4] || v == [2, 3]
  {
    assert v == [v[0], v[1]];
  }

  lemma PartitionInThree(v: seq<int>)
    requires |v| == 3 && 1 <= v[0] <= v[1] <= v[2] && v[0] + v[1] + v[2] == 5
    ensures v == [1, 1, 3] || v == [1, 2, 2]
  {
    assert v == [v[0], v[1], v[2]];
  }

  lemma PartitionInFour(v: seq<int>)
    requires |v| == 4 && 1 <= v[0] <= v[1] <= v[2] <= v[3] && v[0] + v[1] + v[2] + v[3] == 5
    ensures v == [1, 1, 1, 2]
  {
    assert v == [v[0], v[1], v[2], v[3]];
  }

  lemma PartitionInFive(v: seq<int>)
    requires |v| == 5 && 1 <= v[0] && 1 <= v[1] && 1 <= v[2] && 1 <= v[3] && 1 <= v[4]
    requires v[0] + v[1] + v[2] + v[3] + v[4] == 5
    ensures v == [1, 1, 1, 1, 1]
  {
    assert v == [v[0], v[1], v[2], v[3], v[4]];
  }

  /** The ascending lists of positive integers adding up to five, by length. */
  lemma PartitionsBySize(v: seq<int>)
    requires SortedBy(v, Id)
    requires forall i | 0 <= i < |v| :: v[i] >= 1
    requires Sum(v) == 5
    ensures |v| == 1 ==> v == [5]
    ensures |v| == 2 ==> v == [1, 4] || v == [2, 3]
    ensures |v| == 3 ==> v == [1, 1, 3] || v == [1, 2, 2]
    ensures |v| == 4 ==> v == [1, 1, 1, 2]
    ensures |v| == 5 ==> v == [1, 1, 1, 1, 1]
    ensures 1 <= |v| <= 5
  {
    SumAtLeastLength(v);
    SumOfShort(v);
    var n := |v|;
    if n == 1 {
      assert v == [v[0]];
    } else if n == 2 {
      assert Id(v[0]) <= Id(v[1]);
      PartitionInTwo(v);
    } else if n == 3 {
      assert Id(v[0]) <= Id(v[1]) && Id(v[1]) <= Id(v[2]);
      PartitionInThree(v);
    } else if n == 4 {
      assert Id(v[0]) <= Id(v[1]) && Id(v[1]) <= Id(v[2]) && Id(v[2]) <= Id(v[3]);
      PartitionInFour(v);
    } else if n == 5 {
      assert v[0] >= 1 && v[1] >= 1 && v[2] >= 1 && v[3] >= 1 && v[4] >= 1;
      PartitionInFive(v);
    }
  }

  /** The ascending lists of positive integers adding up to five. */
  lemma PartitionsOfFive(v: seq<int>)
    requires SortedBy(v, Id)
    requires forall i | 0 <= i < |v| :: v[i] >= 1
    requires Sum(v) == 5
    ensures v in {[5], [1, 4], [2, 3], [1, 1, 3], [1, 2, 2], [1, 1, 1, 2], [1, 1, 1, 1, 1]}
  {
    PartitionsBySize(v);
  }

  // ---------------------------------------------------------------------
  // Classify agrees with the reference.

  lemma FlushIff(faces: seq<Face>)
    requires faces != []
    ensures IsFlush(faces) <==> OneSuit(multiset(Suits(faces)))
  {
    var m := multiset(Suits(faces));
    if IsFlush(faces) {
      forall a, b | a in m && b in m ensures a == b {
        var i :| 0 <= i < |faces| && Suits(faces)[i] == a;
        var j :| 0 <= j < |faces| && Suits(faces)[j] == b;
      }
    }
    if OneSuit(m) {
      forall i | 1 <= i < |faces| ensures faces[i].suit == faces[0].suit {
        assert Suits(faces)[i] in m && Suits(faces)[0] in m;
      }
    }
  }

  lemma WheelIff(s: seq<int>)
    requires |s| == 5 && SortedBy(s, Id)
    ensures s == [0, 1, 2, 3, 12] <==> multiset(s) == multiset{0, 1, 2, 3, 12}
  {
    if multiset(s) == multiset{0, 1, 2, 3, 12} {
      SortedUnique(s, [0, 1, 2, 3, 12]);
    }
  }

  lemma RoyalIff(s: seq<int>)
    requires |s| == 5 && SortedBy(s, Id)
    ensures s == [8, 9, 10, 11, 12] <==> multiset(s) == multiset{8, 9, 10, 11, 12}
  {
    if multiset(s) == multiset{8, 9, 10, 11, 12} {
      SortedUnique(s, [8, 9, 10, 11, 12]);
    }
  }

  lemma RunIsConsecutive(lo: int)
    ensures multiset([lo, lo + 1, lo + 2, lo + 3, lo + 4]) == Consecutive(lo)
  {
    var run := [lo, lo + 1, lo + 2, lo + 3, lo + 4];
    assert run == [lo] + [lo + 1] + [lo + 2] + [lo + 3] + [lo + 4];
  }

  lemma ConsecutiveOfRun(s: seq<int>)
    requires |s| == 5 && s == [s[0], s[0] + 1, s[0] + 2, s[0] + 3, s[0] + 4]
    ensures exists lo :: multiset(s) == Consecutive(lo)
  {
    RunIsConsecutive(s[0]);
  }

  lemma RunOfConsecutive(s: seq<int>, lo: int)
    requires |s| == 5 && SortedBy(s, Id) && multiset(s) == Consecutive(lo)
    ensures s == [s[0], s[0] + 1, s[0] + 2, s[0] + 3, s[0] + 4]
  {
    ConsecutiveSorted(s, lo);
  }

  lemma ConsecutiveIff(s: seq<int>)
    requires |s| == 5 && SortedBy(s, Id)
    ensures s == [s[0], s[0] + 1, s[0] + 2, s[0] + 3, s[0] + 4]
            <==> exists lo :: multiset(s) == Consecutive(lo)
  {
    if s == [s[0], s[0] + 1, s[0] + 2, s[0] + 3, s[0] + 4] {
      ConsecutiveOfRun(s);
    }
    if exists lo :: multiset(s) == Consecutive(lo) {
      var lo :| multiset(s) == Consecutive(lo);
      RunOfConsecutive(s, lo);
    }
  }

  lemma ConsecutiveSorted(s: seq<int>, lo: int)
    requires |s| == 5 && SortedBy(s, Id)
    requires multiset(s) == Consecutive(lo)
    ensures s == [lo, lo + 1, lo + 2, lo + 3, lo + 4]
  {
    var run := [lo, lo + 1, lo + 2, lo + 3, lo + 4];
    RunIsConsecutive(lo);
    assert SortedBy(run, Id) by {
      forall i, j | 0 <= i < j < 5 ensures Id(run[i]) <= Id(run[j]) {
        assert run[i] == lo + i && run[j] == lo + j;
      }
    }
    SortedUnique(s, run);
  }

  lemma StraightIff(s: seq<int>)
    requires |s| == 5 && SortedBy(s, Id)
    ensures IsStraight(s) <==> StraightRanks(multiset(s))
  {
    WheelIff(s);
    ConsecutiveIff(s);
  }

  lemma SortedScores(faces: seq<Face>)
    requires SortedBy(faces, FaceScore)
    ensures SortedBy(Scores(faces), Id)
  {
    var s := Scores(faces);
    forall i, j | 0 <= i < j < |s| ensures Id(s[i]) <= Id(s[j]) {
      assert FaceScore(faces[i]) <= FaceScore(faces[j]);
    }
  }

  /** The sorted group lengths of five sorted scores: one of the seven
      partitions of five, with the same groups as the rank multiplicities. */
  lemma GroupKey(s: seq<int>)
    requires |s| == 5 && SortedBy(s, Id)
    ensures var key, m := SortBy(Runs(s), Id), multiset(s);
      key in {[5], [1, 4], [2, 3], [1, 1, 3], [1, 2, 2], [1, 1, 1, 2], [1, 1, 1, 1, 1]}
      && (HasGroup(m, 5) <==> 5 in key) && (HasGroup(m, 4) <==> 4 in key)
      && (HasGroup(m, 3) <==> 3 in key) && (HasGroup(m, 2) <==> 2 in key)
      && (HasTwoGroups(m, 2) <==> multiset(key)[2] >= 2)
  {
    var runs := Runs(s);
    var key := SortBy(runs, Id);
    SortByCorrect(runs, Id);
    RunsPositive(s);
    SumSortBy(runs);
    forall i | 0 <= i < |key| ensures key[i] >= 1 {
      assert key[i] in multiset(runs);
    }
    PartitionsOfFive(key);
    GroupIff(s, 5);
    GroupIff(s, 4);
    GroupIff(s, 3);
    GroupIff(s, 2);
    TwoGroupsIff(s, 2);
    assert forall k :: k in runs <==> k in multiset(key);
  }

  lemma TableMatchesGroups(key: seq<int>, m: multiset<int>, straight: bool)
    requires key in {[5], [1, 4], [2, 3], [1, 1, 3], [1, 2, 2], [1, 1, 1, 2], [1, 1, 1, 1, 1]}
    requires (HasGroup(m, 5) <==> 5 in key) && (HasGroup(m, 4) <==> 4 in key)
    requires (HasGroup(m, 3) <==> 3 in key) && (HasGroup(m, 2) <==> 2 in key)
    requires HasTwoGroups(m, 2) <==> multiset(key)[2] >= 2
    ensures (if key in Table(straight) then Some(Table(straight)[key]) else None)
            == GroupCategory(m, straight)
  {
  }

  /** `Hand.hand` computes the category the rank multiplicities and suits
      call for: four of a kind exactly when some rank occurs four times, a full
      house for a rank three times and another twice, and so on; five cards of
      one rank in mixed suits are the table's missing key. */
  lemma {:induction false} ClassifyMatchesReference(faces: seq<Face>)
    requires |faces| == 5 && SortedBy(faces, FaceScore)
    ensures Classify(faces) == ReferenceCategory(multiset(Scores(faces)), multiset(Suits(faces)))
  {
    var s := Scores(faces);
    SortedScores(faces);
    FlushIff(faces);
    StraightIff(s);
    RoyalIff(s);
    if !IsFlush(faces) {
      GroupKey(s);
      TableMatchesGroups(SortBy(Runs(s), Id), multiset(s), IsStraight(s));
    }
  }

  /** The category of five faces in any order, once sorted as `Hand` sorts them,
      depends only on which ranks and suits occur how often. */
  lemma CategoryIgnoresOrder(faces: seq<Face>)
    requires |faces| == 5
    ensures var sorted := SortBy(faces, FaceScore);
      |sorted| == 5
      && Classify(sorted) == ReferenceCategory(multiset(Scores(faces)), multiset(Suits(faces)))
  {
    var sorted := SortBy(faces, FaceScore);
    SortByCorrect(faces, FaceScore);
    ClassifyMatchesReference(sorted);
    MapPermutation(sorted, faces, FaceScore);
    MapPermutation(sorted, faces, FaceSuit);
  }

  /** The flush branch of `Hand.hand`, as the source states it. */
  lemma FlushCategories(faces: seq<Face>)
    requires |faces| == 5 && IsFlush(faces)
    ensures Scores(faces) == [8, 9, 10, 11, 12] ==> Classify(faces) == Some(RoyalFlush)
    ensures Scores(faces) != [8, 9, 10, 11, 12] && IsStraight(Scores(faces))
            ==> Classify(faces) == Some(StraightFlush)
    ensures !IsStraight(Scores(faces)) ==> Classify(faces) == Some(Flush)
  {
  }

  /** `Hand.hand` fails only for five cards of one rank (in mixed suits). */
  lemma {:induction false} ClassifyFailsOnlyForFiveOfAKind(faces: seq<Face>)
    requires |faces| == 5 && SortedBy(faces, FaceScore)
    ensures Classify(faces).None? <==> !IsFlush(faces) && HasGroup(multiset(Scores(faces)), 5)
  {
    ClassifyMatchesReference(faces);
    FlushIff(faces);
    ReferenceFails(multiset(Scores(faces)), multiset(Suits(faces)));
  }

  lemma ReferenceFails(m: multiset<int>, su: multiset<Suit>)
    ensures ReferenceCategory(m, su).None? <==> !OneSuit(su) && HasGroup(m, 5)
  {
  }

  // ---------------------------------------------------------------------
  // The order on hands.

  /** What `Hand.__eq__` and `Hand.__lt__` look at: the category (through
      its score) and the ranks in the hand's ascending order. */
  datatype Key = Key(category: Category, ranks: seq<int>)

  /** The key of a hand whose faces are `faces`, in the hand's order; None when
      `Hand.score` raises. */
  function KeyOf(faces: seq<Face>): Option<Key>
    requires |faces| == 5
  {
    match Classify(faces)
    case None => None
    case Some(c) => Some(Key(c, Scores(faces)))
  }

  /** The order `Hand.__init__` keeps its cards in: `sorted`, ascending by
      rank, equal ranks in their given order (SortByIsStable). */
  function InHandOrder(faces: seq<Face>): (r: seq<Face>)
    ensures |r| == |faces| && SortedBy(r, FaceScore) && multiset(r) == multiset(faces)
  {
    SortByCorrect(faces, FaceScore);
    SortBy(faces, FaceScore)
  }

  /** The key of a hand depends only on which faces it holds, not on the
      order they were given in: any arrangement of an ascending hand, once
      sorted, has its key. */
  lemma KeyOfSorted(w: seq<Face>, c: seq<Face>)
    requires |w| == 5 && |c| == 5 && SortedBy(c, FaceScore) && multiset(w) == multiset(c)
    ensures KeyOf(InHandOrder(w)) == KeyOf(c)
  {
    var sorted := InHandOrder(w);
    ClassifyMatchesReference(sorted);
    ClassifyMatchesReference(c);
    MapPermutation(sorted, c, FaceScore);
    MapPermutation(sorted, c, FaceSuit);
    SortedScores(sorted);
    SortedScores(c);
    SortedUnique(Scores(sorted), Scores(c));
  }

  /** The scan of `Hand.__lt__`: from the last position down to the first, the
      first pair of different ranks decides. */
  function RevLexLess(a: seq<int>, b: seq<int>): bool
    requires |a| == |b|
    decreases |a|
  {
    var n := |a|;
    n > 0 && (a[n - 1] < b[n - 1]
              || (a[n - 1] == b[n - 1] && RevLexLess(a[..n - 1], b[..n - 1])))
  }

  /** `Hand.__eq__`: equal scores and equal ranks position by position. */
  predicate KeyEqual(x: Key, y: Key)
    requires |x.ranks| == |y.ranks|
  {
    Ordinal(x.category) == Ordinal(y.category) && x.ranks == y.ranks
  }

  /** `Hand.__lt__`: a lower category, or the same one and lower ranks from
      the top down. */
  predicate KeyLess(x: Key, y: Key)
    requires |x.ranks| == |y.ranks|
  {
    Ordinal(x.category) < Ordinal(y.category)
    || (Ordinal(x.category) == Ordinal(y.category) && RevLexLess(x.ranks, y.ranks))
  }

  /** Some position holds a smaller rank in `a` and every position above it
      holds equal ranks. */
  ghost predicate DecidedAt(a: seq<int>, b: seq<int>, i: int)
    requires |a| == |b|
  {
    0 <= i < |a| && a[i] < b[i] && a[i + 1..] == b[i + 1..]
  }

  /** The scan finds a smaller rank at some position above which all ranks
      agree, and that is all it finds. */
  lemma {:induction false} RevLexLessIff(a: seq<int>, b: seq<int>)
    requires |a| == |b|
    ensures RevLexLess(a, b) <==> exists i :: DecidedAt(a, b, i)
    decreases |a|
  {
    var n := |a|;
    if n > 0 {
      var a', b' := a[..n - 1], b[..n - 1];
      RevLexLessIff(a', b');
      if a[n - 1] < b[n - 1] {
        assert DecidedAt(a, b, n - 1);
      } else if a[n - 1] == b[n - 1] {
        DecidedBelowTop(a, b, a', b');
      } else {
        forall i | DecidedAt(a, b, i) ensures false {
        }
      }
    }
  }

  lemma DecidedBelowTop(a: seq<int>, b: seq<int>, a': seq<int>, b': seq<int>)
    requires |a| == |b| > 0 && a[|a| - 1] == b[|a| - 1]
    requires a' == a[..|a| - 1] && b' == b[..|a| - 1]
    ensures (exists i :: DecidedAt(a, b, i)) <==> (exists i :: DecidedAt(a', b', i))
  {
    var n := |a|;
    assert a == a' + [a[n - 1]] && b == b' + [b[n - 1]];
    if exists i :: DecidedAt(a', b', i) {
      var i :| DecidedAt(a', b', i);
      assert a[i + 1..] == a'[i + 1..] + [a[n - 1]];
      assert b[i + 1..] == b'[i + 1..] + [b[n - 1]];
      assert DecidedAt(a, b, i);
    }
    if exists i :: DecidedAt(a, b, i) {
      var i :| DecidedAt(a, b, i);
      assert i < n - 1;
      assert a'[i + 1..] == a[i + 1..][..n - 2 - i];
      assert b'[i + 1..] == b[i + 1..][..n - 2 - i];
      assert DecidedAt(a', b', i);
    }
  }

  lemma {:induction false} RevLexTrichotomy(a: seq<int>, b: seq<int>)
    requires |a| == |b|
    ensures RevLexLess(a, b) ==> !RevLexLess(b, a) && a != b
    ensures !RevLexLess(a, b) && !RevLexLess(b, a) ==> a == b
    decreases |a|
  {
    var n := |a|;
    if n > 0 {
      RevLexTrichotomy(a[..n - 1], b[..n - 1]);
      assert a == a[..n - 1] + [a[n - 1]] && b == b[..n - 1] + [b[n - 1]];
    }
  }

  lemma {:induction false} RevLexTransitive(a: seq<int>, b: seq<int>, c: seq<int>)
    requires |a| == |b| == |c|
    requires RevLexLess(a, b) && RevLexLess(b, c)
    ensures RevLexLess(a, c)
    decreases |a|
  {
    var n := |a|;
    if a[n - 1] == b[n - 1] == c[n - 1] {
      RevLexTransitive(a[..n - 1], b[..n - 1], c[..n - 1]);
    }
  }

  /** Comparison of hands is a strict total order on keys: exactly one of
      `<`, `==`, `>` holds, and `<` is transitive. */
  lemma KeyOrderIsTotal(x: Key, y: Key, z: Key)
    requires |x.ranks| == |y.ranks| == |z.ranks|
    ensures KeyLess(x, y) ==> !KeyEqual(x, y) && !KeyLess(y, x)
    ensures KeyEqual(x, y) ==> !KeyLess(y, x)
    ensures KeyLess(x, y) || KeyEqual(x, y) || KeyLess(y, x)
    ensures KeyLess(x, y) && KeyLess(y, z) ==> KeyLess(x, z)
  {
    RevLexTrichotomy(x.ranks, y.ranks);
    if KeyLess(x, y) && KeyLess(y, z) && Ordinal(x.category) == Ordinal(y.category) == Ordinal(z.category) {
      RevLexTransitive(x.ranks, y.ranks, z.ranks);
    }
  }

  // ---------------------------------------------------------------------
  // The hands of the repository's test script.

  function F(score: Score, suit: Suit): Face { Face(score, suit) }

  const S := Spades
  const H := Hearts
  const D := Diamonds
  const C := Clubs

  // The hands of the test script: each spec's faces as it writes them
  // (`...Spec`), then as `Hand` keeps them (ascending by rank, equal ranks
  // in the order of the spec).

  /** AS 10S JS QS KS */
  const RoyalFlushHandSpec: seq<Face> := [F(12, S), F(8, S), F(9, S), F(10, S), F(11, S)]
  const RoyalFlushHand: seq<Face> := [F(8, S), F(9, S), F(10, S), F(11, S), F(12, S)]

  /** AS 2S 3S 4S 5S */
  const StraightFlushWheelSpec: seq<Face> := [F(12, S), F(0, S), F(1, S), F(2, S), F(3, S)]
  const StraightFlushWheel: seq<Face> := [F(0, S), F(1, S), F(2, S), F(3, S), F(12, S)]

  /** 6S 2S 3S 4S 5S */
  const StraightFlushSixHighSpec: seq<Face> := [F(4, S), F(0, S), F(1, S), F(2, S), F(3, S)]
  const StraightFlushSixHigh: seq<Face> := [F(0, S), F(1, S), F(2, S), F(3, S), F(4, S)]

  /** AS AC AD AH 5S */
  const FourAcesSpec: seq<Face> := [F(12, S), F(12, C), F(12, D), F(12, H), F(3, S)]
  const FourAces: seq<Face> := [F(3, S), F(12, S), F(12, C), F(12, D), F(12, H)]

  /** AS AC AD 5H 5S */
  const AcesFullOfFivesSpec: seq<Face> := [F(12, S), F(12, C), F(12, D), F(3, H), F(3, S)]
  const AcesFullOfFives: seq<Face> := [F(3, H), F(3, S), F(12, S), F(12, C), F(12, D)]

  /** AS 2S 3S 4S 6S */
  const FlushAceHighSpec: seq<Face> := [F(12, S), F(0, S), F(1, S), F(2, S), F(4, S)]
  const FlushAceHigh: seq<Face> := [F(0, S), F(1, S), F(2, S), F(4, S), F(12, S)]

  /** AH 2S 3S 4S 5S */
  const StraightWheelSpec: seq<Face> := [F(12, H), F(0, S), F(1, S), F(2, S), F(3, S)]
  const StraightWheel: seq<Face> := [F(0, S), F(1, S), F(2, S), F(3, S), F(12, H)]

  /** 6S 2D 3S 4S 5S */
  const StraightSixHighSpec: seq<Face> := [F(4, S), F(0, D), F(1, S), F(2, S), F(3, S)]
  const StraightSixHigh: seq<Face> := [F(0, D), F(1, S), F(2, S), F(3, S), F(4, S)]

  /** AS AC AD 4H 5S */
  const ThreeAcesSpec: seq<Face> := [F(12, S), F(12, C), F(12, D), F(2, H), F(3, S)]
  const ThreeAces: seq<Face> := [F(2, H), F(3, S), F(12, S), F(12, C), F(12, D)]

  /** AS AC 4D 4H 5S */
  const AcesAndFoursSpec: seq<Face> := [F(12, S), F(12, C), F(2, D), F(2, H), F(3, S)]
  const AcesAndFours: seq<Face> := [F(2, D), F(2, H), F(3, S), F(12, S), F(12, C)]

  /** AS 2C 4D 4H 5S */
  const PairOfFoursSpec: seq<Face> := [F(12, S), F(0, C), F(2, D), F(2, H), F(3, S)]
  const PairOfFours: seq<Face> := [F(0, C), F(2, D), F(2, H), F(3, S), F(12, S)]

  /** AS 2C 4D 7H 5S */
  const AceHighSpec: seq<Face> := [F(12, S), F(0, C), F(2, D), F(5, H), F(3, S)]
  const AceHigh: seq<Face> := [F(0, C), F(2, D), F(3, S), F(5, H), F(12, S)]

  /** 9S 2C 4D 7H 5S */
  const NineHighSpec: seq<Face> := [F(7, S), F(0, C), F(2, D), F(5, H), F(3, S)]
  const NineHigh: seq<Face> := [F(0, C), F(2, D), F(3, S), F(5, H), F(7, S)]

  // The hands the test script compares, all of them high cards.

  /** AS 2D 4C 7H KS */
  const AceKingASpec: seq<Face> := [F(12, S), F(0, D), F(2, C), F(5, H), F(11, S)]
  const AceKingA: seq<Face> := [F(0, D), F(2, C), F(5, H), F(11, S), F(12, S)]

  /** AC 2C 4D 7S KH */
  const AceKingBSpec: seq<Face> := [F(12, C), F(0, C), F(2, D), F(5, S), F(11, H)]
  const AceKingB: seq<Face> := [F(0, C), F(2, D), F(5, S), F(11, H), F(12, C)]

  /** QS 3D 5C 8H 10S */
  const QueenTenSpec: seq<Face> := [F(10, S), F(1, D), F(3, C), F(6, H), F(8, S)]
  const QueenTen: seq<Face> := [F(1, D), F(3, C), F(6, H), F(8, S), F(10, S)]

  /** 2H 3D 4S 9C KD */
  const KingNineSpec: seq<Face> := [F(0, H), F(1, D), F(2, S), F(7, C), F(11, D)]
  const KingNine: seq<Face> := [F(0, H), F(1, D), F(2, S), F(7, C), F(11, D)]

  /** 2H 3D 6S 8C KD */
  const KingEightSpec: seq<Face> := [F(0, H), F(1, D), F(4, S), F(6, C), F(11, D)]
  const KingEight: seq<Face> := [F(0, H), F(1, D), F(4, S), F(6, C), F(11, D)]

  // Evaluating `Hand.hand` on the hands above, one step at a time.

  /** Strictly ascending scores form runs of one card each. */
  lemma {:induction false} RunsOfAscending(s: seq<int>)
    requires forall i | 0 <= i < |s| - 1 :: s[i] < s[i + 1]
    ensures Runs(s) == seq(|s|, _ => 1)
  {
    if s != [] {
      assert LeadLength(s) == 1;
      RunsOfAscending(s[1..]);
    }
  }

  /** Sorting group lengths that are already in order changes nothing. */
  lemma SortByOfSorted(s: seq<int>)
    requires SortedBy(s, Id)
    ensures SortBy(s, Id) == s
  {
    SortByCorrect(s, Id);
    SortedUnique(SortBy(s, Id), s);
  }

  /** The group lengths of a pair below the top rank, sorted. */
  lemma SortPairKey()
    ensures SortBy([1, 2, 1, 1], Id) == [1, 1, 1, 2]
  {
    assert [1, 1][1..] == [1];
    assert SortBy([1, 1], Id) == [1, 1];
    assert [2, 1, 1][1..] == [1, 1];
    assert Insert(2, [1], Id) == [1, 2];
    assert SortBy([2, 1, 1], Id) == [1, 1, 2];
    assert [1, 2, 1, 1][1..] == [2, 1, 1];
  }

  /** The group lengths of two pairs around a single card, sorted. */
  lemma SortTwoPairKey()
    ensures SortBy([2, 1, 2], Id) == [1, 2, 2]
  {
    assert [2][1..] == [];
    assert [1, 2][1..] == [2];
    assert SortBy([1, 2], Id) == [1, 2];
    assert Insert(2, [2], Id) == [2, 2];
    assert [2, 1, 2][1..] == [1, 2];
  }

  /** The sorted group lengths of every hand shape the test script uses. */
  lemma SortedGroupKeys()
    ensures SortBy([1, 4], Id) == [1, 4] && SortBy([2, 3], Id) == [2, 3]
    ensures SortBy([1, 1, 3], Id) == [1, 1, 3] && SortBy([2, 1, 2], Id) == [1, 2, 2]
    ensures SortBy([1, 2, 1, 1], Id) == [1, 1, 1, 2] && SortBy([1, 1, 1, 1, 1], Id) == [1, 1, 1, 1, 1]
  {
    SortByOfSorted([1, 4]);
    SortByOfSorted([2, 3]);
    SortByOfSorted([1, 1, 3]);
    SortByOfSorted([1, 1, 1, 1, 1]);
    SortPairKey();
    SortTwoPairKey();
  }

  /** `Hand.hand` on a hand of one suit. */
  lemma ClassifyOneSuit(faces: seq<Face>, s: seq<int>)
    requires |faces| == 5 && IsFlush(faces) && Scores(faces) == s
    ensures Classify(faces) == Some(
      if s == [8, 9, 10, 11, 12] then RoyalFlush else if IsStraight(s) then StraightFlush else Flush)
    ensures KeyOf(faces) == Some(Key(Classify(faces).value, s))
  {
  }

  /** `Hand.hand` on a hand with mixed suits, given its scores, its groups
      and its sorted group lengths. */
  lemma ClassifyMixedSuits(faces: seq<Face>, s: seq<int>, runs: seq<int>, key: seq<int>, straight: bool)
    requires |faces| == 5 && !IsFlush(faces)
    requires Scores(faces) == s && Runs(s) == runs && SortBy(runs, Id) == key && IsStraight(s) == straight
    ensures Classify(faces) == if key in Table(straight) then Some(Table(straight)[key]) else None
    ensures KeyOf(faces) == if key in Table(straight) then Some(Key(Table(straight)[key], s)) else None
  {
  }

  lemma RoyalFlushHandShape()
    ensures IsFlush(RoyalFlushHand) && Scores(RoyalFlushHand) == [8, 9, 10, 11, 12]
  {
    assert Scores(RoyalFlushHand) == [8, 9, 10, 11, 12];
  }

  lemma RoyalFlushHandKey()
    ensures KeyOf(RoyalFlushHand) == Some(Key(RoyalFlush, [8, 9, 10, 11, 12]))
  {
    RoyalFlushHandShape();
    ClassifyOneSuit(RoyalFlushHand, [8, 9, 10, 11, 12]);
  }

  lemma RoyalFlushHandWritten()
    ensures multiset(RoyalFlushHandSpec) == multiset(RoyalFlushHand)
  {
  }

  lemma RoyalFlushHandAscending()
    ensures SortedBy(RoyalFlushHand, FaceScore)
  {
  }

  lemma TestRoyalFlushHand()
    ensures KeyOf(InHandOrder(RoyalFlushHandSpec)) == Some(Key(RoyalFlush, [8, 9, 10, 11, 12]))
  {
    RoyalFlushHandKey();
    RoyalFlushHandWritten();
    RoyalFlushHandAscending();
    KeyOfSorted(RoyalFlushHandSpec, RoyalFlushHand);
  }

  lemma StraightFlushWheelShape()
    ensures IsFlush(StraightFlushWheel) && Scores(StraightFlushWheel) == [0, 1, 2, 3, 12]
  {
    assert Scores(StraightFlushWheel) == [0, 1, 2, 3, 12];
  }

  lemma StraightFlushWheelKey()
    ensures KeyOf(StraightFlushWheel) == Some(Key(StraightFlush, [0, 1, 2, 3, 12]))
  {
    StraightFlushWheelShape();
    ClassifyOneSuit(StraightFlushWheel, [0, 1, 2, 3, 12]);
  }

  lemma StraightFlushWheelWritten()
    ensures multiset(StraightFlushWheelSpec) == multiset(StraightFlushWheel)
  {
  }

  lemma StraightFlushWheelAscending()
    ensures SortedBy(StraightFlushWheel, FaceScore)
  {
  }

  lemma TestStraightFlushWheel()
    ensures KeyOf(InHandOrder(StraightFlushWheelSpec)) == Some(Key(StraightFlush, [0, 1, 2, 3, 12]))
  {
    StraightFlushWheelKey();
    StraightFlushWheelWritten();
    StraightFlushWheelAscending();
    KeyOfSorted(StraightFlushWheelSpec, StraightFlushWheel);
  }

  lemma StraightFlushSixHighShape()
    ensures IsFlush(StraightFlushSixHigh) && Scores(StraightFlushSixHigh) == [0, 1, 2, 3, 4]
  {
    assert Scores(StraightFlushSixHigh) == [0, 1, 2, 3, 4];
  }

  lemma StraightFlushSixHighKey()
    ensures KeyOf(StraightFlushSixHigh) == Some(Key(StraightFlush, [0, 1, 2, 3, 4]))
  {
    StraightFlushSixHighShape();
    ClassifyOneSuit(StraightFlushSixHigh, [0, 1, 2, 3, 4]);
  }

  lemma StraightFlushSixHighWritten()
    ensures multiset(StraightFlushSixHighSpec) == multiset(StraightFlushSixHigh)
  {
  }

  lemma StraightFlushSixHighAscending()
    ensures SortedBy(StraightFlushSixHigh, FaceScore)
  {
  }

  lemma TestStraightFlushSixHigh()
    ensures KeyOf(InHandOrder(StraightFlushSixHighSpec)) == Some(Key(StraightFlush, [0, 1, 2, 3, 4]))
  {
    StraightFlushSixHighKey();
    StraightFlushSixHighWritten();
    StraightFlushSixHighAscending();
    KeyOfSorted(StraightFlushSixHighSpec, StraightFlushSixHigh);
  }

  lemma FourAcesShape()
    ensures !IsFlush(FourAces) && Scores(FourAces) == [3, 12, 12, 12, 12] && Runs([3, 12, 12, 12, 12]) == [1, 4]
  {
    assert FourAces[2].suit != FourAces[0].suit;
    assert Scores(FourAces) == [3, 12, 12, 12, 12];
    assert Runs([3, 12, 12, 12, 12]) == [1, 4];
  }

  lemma FourAcesKey()
    ensures KeyOf(FourAces) == Some(Key(FourOfAKind, [3, 12, 12, 12, 12]))
  {
    FourAcesShape();
    SortedGroupKeys();
    ClassifyMixedSuits(FourAces, [3, 12, 12, 12, 12], [1, 4], [1, 4], false);
  }

  lemma FourAcesWritten()
    ensures multiset(FourAcesSpec) == multiset(FourAces)
  {
  }

  lemma FourAcesAscending()
    ensures SortedBy(FourAces, FaceScore)
  {
  }

  lemma TestFourAces()
    ensures KeyOf(InHandOrder(FourAcesSpec)) == Some(Key(FourOfAKind, [3, 12, 12, 12, 12]))
  {
    FourAcesKey();
    FourAcesWritten();
    FourAcesAscending();
    KeyOfSorted(FourAcesSpec, FourAces);
  }

  lemma AcesFullOfFivesShape()
    ensures !IsFlush(AcesFullOfFives) && Scores(AcesFullOfFives) == [3, 3, 12, 12, 12] && Runs([3, 3, 12, 12, 12]) == [2, 3]
  {
    assert AcesFullOfFives[1].suit != AcesFullOfFives[0].suit;
    assert Scores(AcesFullOfFives) == [3, 3, 12, 12, 12];
    assert Runs([3, 3, 12, 12, 12]) == [2, 3];
  }

  lemma AcesFullOfFivesKey()
    ensures KeyOf(AcesFullOfFives) == Some(Key(FullHouse, [3, 3, 12, 12, 12]))
  {
    AcesFullOfFivesShape();
    SortedGroupKeys();
    ClassifyMixedSuits(AcesFullOfFives, [3, 3, 12, 12, 12], [2, 3], [2, 3], false);
  }

  lemma AcesFullOfFivesWritten()
    ensures multiset(AcesFullOfFivesSpec) == multiset(AcesFullOfFives)
  {
  }

  lemma AcesFullOfFivesAscending()
    ensures SortedBy(AcesFullOfFives, FaceScore)
  {
  }

  lemma TestAcesFullOfFives()
    ensures KeyOf(InHandOrder(AcesFullOfFivesSpec)) == Some(Key(FullHouse, [3, 3, 12, 12, 12]))
  {
    AcesFullOfFivesKey();
    AcesFullOfFivesWritten();
    AcesFullOfFivesAscending();
    KeyOfSorted(AcesFullOfFivesSpec, AcesFullOfFives);
  }

  lemma FlushAceHighShape()
    ensures IsFlush(FlushAceHigh) && Scores(FlushAceHigh) == [0, 1, 2, 4, 12]
  {
    assert Scores(FlushAceHigh) == [0, 1, 2, 4, 12];
  }

  lemma FlushAceHighKey()
    ensures KeyOf(FlushAceHigh) == Some(Key(Flush, [0, 1, 2, 4, 12]))
  {
    FlushAceHighShape();
    ClassifyOneSuit(FlushAceHigh, [0, 1, 2, 4, 12]);
  }

  lemma FlushAceHighWritten()
    ensures multiset(FlushAceHighSpec) == multiset(FlushAceHigh)
  {
  }

  lemma FlushAceHighAscending()
    ensures SortedBy(FlushAceHigh, FaceScore)
  {
  }

  lemma TestFlushAceHigh()
    ensures KeyOf(InHandOrder(FlushAceHighSpec)) == Some(Key(Flush, [0, 1, 2, 4, 12]))
  {
    FlushAceHighKey();
    FlushAceHighWritten();
    FlushAceHighAscending();
    KeyOfSorted(FlushAceHighSpec, FlushAceHigh);
  }

  lemma StraightWheelShape()
    ensures !IsFlush(StraightWheel) && Scores(StraightWheel) == [0, 1, 2, 3, 12] && Runs([0, 1, 2, 3, 12]) == [1, 1, 1, 1, 1]
  {
    assert StraightWheel[4].suit != StraightWheel[0].suit;
    assert Scores(StraightWheel) == [0, 1, 2, 3, 12];
    RunsOfAscending([0, 1, 2, 3, 12]);
  }

  lemma StraightWheelKey()
    ensures KeyOf(StraightWheel) == Some(Key(Straight, [0, 1, 2, 3, 12]))
  {
    StraightWheelShape();
    SortedGroupKeys();
    ClassifyMixedSuits(StraightWheel, [0, 1, 2, 3, 12], [1, 1, 1, 1, 1], [1, 1, 1, 1, 1], true);
  }

  lemma StraightWheelWritten()
    ensures multiset(StraightWheelSpec) == multiset(StraightWheel)
  {
  }

  lemma StraightWheelAscending()
    ensures SortedBy(StraightWheel, FaceScore)
  {
  }

  lemma TestStraightWheel()
    ensures KeyOf(InHandOrder(StraightWheelSpec)) == Some(Key(Straight, [0, 1, 2, 3, 12]))
  {
    StraightWheelKey();
    StraightWheelWritten();
    StraightWheelAscending();
    KeyOfSorted(StraightWheelSpec, StraightWheel);
  }

  lemma StraightSixHighShape()
    ensures !IsFlush(StraightSixHigh) && Scores(StraightSixHigh) == [0, 1, 2, 3, 4] && Runs([0, 1, 2, 3, 4]) == [1, 1, 1, 1, 1]
  {
    assert StraightSixHigh[1].suit != StraightSixHigh[0].suit;
    assert Scores(StraightSixHigh) == [0, 1, 2, 3, 4];
    RunsOfAscending([0, 1, 2, 3, 4]);
  }

  lemma StraightSixHighKey()
    ensures KeyOf(StraightSixHigh) == Some(Key(Straight, [0, 1, 2, 3, 4]))
  {
    StraightSixHighShape();
    SortedGroupKeys();
    ClassifyMixedSuits(StraightSixHigh, [0, 1, 2, 3, 4], [1, 1, 1, 1, 1], [1, 1, 1, 1, 1], true);
  }

  lemma StraightSixHighWritten()
    ensures multiset(StraightSixHighSpec) == multiset(StraightSixHigh)
  {
  }

  lemma StraightSixHighAscending()
    ensures SortedBy(StraightSixHigh, FaceScore)
  {
  }

  lemma TestStraightSixHigh()
    ensures KeyOf(InHandOrder(StraightSixHighSpec)) == Some(Key(Straight, [0, 1, 2, 3, 4]))
  {
    StraightSixHighKey();
    StraightSixHighWritten();
    StraightSixHighAscending();
    KeyOfSorted(StraightSixHighSpec, StraightSixHigh);
  }

  lemma ThreeAcesShape()
    ensures !IsFlush(ThreeAces) && Scores(ThreeAces) == [2, 3, 12, 12, 12] && Runs([2, 3, 12, 12, 12]) == [1, 1, 3]
  {
    assert ThreeAces[1].suit != ThreeAces[0].suit;
    assert Scores(ThreeAces) == [2, 3, 12, 12, 12];
    assert Runs([2, 3, 12, 12, 12]) == [1, 1, 3];
  }

  lemma ThreeAcesKey()
    ensures KeyOf(ThreeAces) == Some(Key(ThreeOfAKind, [2, 3, 12, 12, 12]))
  {
    ThreeAcesShape();
    SortedGroupKeys();
    ClassifyMixedSuits(ThreeAces, [2, 3, 12, 12, 12], [1, 1, 3], [1, 1, 3], false);
  }

  lemma ThreeAcesWritten()
    ensures multiset(ThreeAcesSpec) == multiset(ThreeAces)
  {
  }

  lemma ThreeAcesAscending()
    ensures SortedBy(ThreeAces, FaceScore)
  {
  }

  lemma TestThreeAces()
    ensures KeyOf(InHandOrder(ThreeAcesSpec)) == Some(Key(ThreeOfAKind, [2, 3, 12, 12, 12]))
  {
    ThreeAcesKey();
    ThreeAcesWritten();
    ThreeAcesAscending();
    KeyOfSorted(ThreeAcesSpec, ThreeAces);
  }

  lemma AcesAndFoursShape()
    ensures !IsFlush(AcesAndFours) && Scores(AcesAndFours) == [2, 2, 3, 12, 12] && Runs([2, 2, 3, 12, 12]) == [2, 1, 2]
  {
    assert AcesAndFours[1].suit != AcesAndFours[0].suit;
    assert Scores(AcesAndFours) == [2, 2, 3, 12, 12];
    assert Runs([2, 2, 3, 12, 12]) == [2, 1, 2];
  }

  lemma AcesAndFoursKey()
    ensures KeyOf(AcesAndFours) == Some(Key(TwoPair, [2, 2, 3, 12, 12]))
  {
    AcesAndFoursShape();
    SortedGroupKeys();
    ClassifyMixedSuits(AcesAndFours, [2, 2, 3, 12, 12], [2, 1, 2], [1, 2, 2], false);
  }

  lemma AcesAndFoursWritten()
    ensures multiset(AcesAndFoursSpec) == multiset(AcesAndFours)
  {
  }

  lemma AcesAndFoursAscending()
    ensures SortedBy(AcesAndFours, FaceScore)
  {
  }

  lemma TestAcesAndFours()
    ensures KeyOf(InHandOrder(AcesAndFoursSpec)) == Some(Key(TwoPair, [2, 2, 3, 12, 12]))
  {
    AcesAndFoursKey();
    AcesAndFoursWritten();
    AcesAndFoursAscending();
    KeyOfSorted(AcesAndFoursSpec, AcesAndFours);
  }

  lemma PairOfFoursShape()
    ensures !IsFlush(PairOfFours) && Scores(PairOfFours) == [0, 2, 2, 3, 12] && Runs([0, 2, 2, 3, 12]) == [1, 2, 1, 1]
  {
    assert PairOfFours[1].suit != PairOfFours[0].suit;
    assert Scores(PairOfFours) == [0, 2, 2, 3, 12];
    assert Runs([0, 2, 2, 3, 12]) == [1, 2, 1, 1];
  }

  lemma PairOfFoursKey()
    ensures KeyOf(PairOfFours) == Some(Key(Pair, [0, 2, 2, 3, 12]))
  {
    PairOfFoursShape();
    SortedGroupKeys();
    ClassifyMixedSuits(PairOfFours, [0, 2, 2, 3, 12], [1, 2, 1, 1], [1, 1, 1, 2], false);
  }

  lemma PairOfFoursWritten()
    ensures multiset(PairOfFoursSpec) == multiset(PairOfFours)
  {
  }

  lemma PairOfFoursAscending()
    ensures SortedBy(PairOfFours, FaceScore)
  {
  }

  lemma TestPairOfFours()
    ensures KeyOf(InHandOrder(PairOfFoursSpec)) == Some(Key(Pair, [0, 2, 2, 3, 12]))
  {
    PairOfFoursKey();
    PairOfFoursWritten();
    PairOfFoursAscending();
    KeyOfSorted(PairOfFoursSpec, PairOfFours);
  }

  lemma AceHighShape()
    ensures !IsFlush(AceHigh) && Scores(AceHigh) == [0, 2, 3, 5, 12] && Runs([0, 2, 3, 5, 12]) == [1, 1, 1, 1, 1]
  {
    assert AceHigh[1].suit != AceHigh[0].suit;
    assert Scores(AceHigh) == [0, 2, 3, 5, 12];
    RunsOfAscending([0, 2, 3, 5, 12]);
  }

  lemma AceHighKey()
    ensures KeyOf(AceHigh) == Some(Key(HighCard, [0, 2, 3, 5, 12]))
  {
    AceHighShape();
    SortedGroupKeys();
    ClassifyMixedSuits(AceHigh, [0, 2, 3, 5, 12], [1, 1, 1, 1, 1], [1, 1, 1, 1, 1], false);
  }

  lemma AceHighWritten()
    ensures multiset(AceHighSpec) == multiset(AceHigh)
  {
  }

  lemma AceHighAscending()
    ensures SortedBy(AceHigh, FaceScore)
  {
  }

  lemma TestAceHigh()
    ensures KeyOf(InHandOrder(AceHighSpec)) == Some(Key(HighCard, [0, 2, 3, 5, 12]))
  {
    AceHighKey();
    AceHighWritten();
    AceHighAscending();
    KeyOfSorted(AceHighSpec, AceHigh);
  }

  lemma NineHighShape()
    ensures !IsFlush(NineHigh) && Scores(NineHigh) == [0, 2, 3, 5, 7] && Runs([0, 2, 3, 5, 7]) == [1, 1, 1, 1, 1]
  {
    assert NineHigh[1].suit != NineHigh[0].suit;
    assert Scores(NineHigh) == [0, 2, 3, 5, 7];
    RunsOfAscending([0, 2, 3, 5, 7]);
  }

  lemma NineHighKey()
    ensures KeyOf(NineHigh) == Some(Key(HighCard, [0, 2, 3, 5, 7]))
  {
    NineHighShape();
    SortedGroupKeys();
    ClassifyMixedSuits(NineHigh, [0, 2, 3, 5, 7], [1, 1, 1, 1, 1], [1, 1, 1, 1, 1], false);
  }

  lemma NineHighWritten()
    ensures multiset(NineHighSpec) == multiset(NineHigh)
  {
  }

  lemma NineHighAscending()
    ensures SortedBy(NineHigh, FaceScore)
  {
  }

  lemma TestNineHigh()
    ensures KeyOf(InHandOrder(NineHighSpec)) == Some(Key(HighCard, [0, 2, 3, 5, 7]))
  {
    NineHighKey();
    NineHighWritten();
    NineHighAscending();
    KeyOfSorted(NineHighSpec, NineHigh);
  }

  lemma AceKingAShape()
    ensures !IsFlush(AceKingA) && Scores(AceKingA) == [0, 2, 5, 11, 12] && Runs([0, 2, 5, 11, 12]) == [1, 1, 1, 1, 1]
  {
    assert AceKingA[1].suit != AceKingA[0].suit;
    assert Scores(AceKingA) == [0, 2, 5, 11, 12];
    RunsOfAscending([0, 2, 5, 11, 12]);
  }

  lemma AceKingAKey()
    ensures KeyOf(AceKingA) == Some(Key(HighCard, [0, 2, 5, 11, 12]))
  {
    AceKingAShape();
    SortedGroupKeys();
    ClassifyMixedSuits(AceKingA, [0, 2, 5, 11, 12], [1, 1, 1, 1, 1], [1, 1, 1, 1, 1], false);
  }

  lemma AceKingAWritten()
    ensures multiset(AceKingASpec) == multiset(AceKingA)
  {
  }

  lemma AceKingAAscending()
    ensures SortedBy(AceKingA, FaceScore)
  {
  }

  lemma TestAceKingA()
    ensures KeyOf(InHandOrder(AceKingASpec)) == Some(Key(HighCard, [0, 2, 5, 11, 12]))
  {
    AceKingAKey();
    AceKingAWritten();
    AceKingAAscending();
    KeyOfSorted(AceKingASpec, AceKingA);
  }

  lemma AceKingBShape()
    ensures !IsFlush(AceKingB) && Scores(AceKingB) == [0, 2, 5, 11, 12] && Runs([0, 2, 5, 11, 12]) == [1, 1, 1, 1, 1]
  {
    assert AceKingB[1].suit != AceKingB[0].suit;
    assert Scores(AceKingB) == [0, 2, 5, 11, 12];
    RunsOfAscending([0, 2, 5, 11, 12]);
  }

  lemma AceKingBKey()
    ensures KeyOf(AceKingB) == Some(Key(HighCard, [0, 2, 5, 11, 12]))
  {
    AceKingBShape();
    SortedGroupKeys();
    ClassifyMixedSuits(AceKingB, [0, 2, 5, 11, 12], [1, 1, 1, 1, 1], [1, 1, 1, 1, 1], false);
  }

  lemma AceKingBWritten()
    ensures multiset(AceKingBSpec) == multiset(AceKingB)
  {
  }

  lemma AceKingBAscending()
    ensures SortedBy(AceKingB, FaceScore)
  {
  }

  lemma TestAceKingB()
    ensures KeyOf(InHandOrder(AceKingBSpec)) == Some(Key(HighCard, [0, 2, 5, 11, 12]))
  {
    AceKingBKey();
    AceKingBWritten();
    AceKingBAscending();
    KeyOfSorted(AceKingBSpec, AceKingB);
  }

  lemma QueenTenShape()
    ensures !IsFlush(QueenTen) && Scores(QueenTen) == [1, 3, 6, 8, 10] && Runs([1, 3, 6, 8, 10]) == [1, 1, 1, 1, 1]
  {
    assert QueenTen[1].suit != QueenTen[0].suit;
    assert Scores(QueenTen) == [1, 3, 6, 8, 10];
    RunsOfAscending([1, 3, 6, 8, 10]);
  }

  lemma QueenTenKey()
    ensures KeyOf(QueenTen) == Some(Key(HighCard, [1, 3, 6, 8, 10]))
  {
    QueenTenShape();
    SortedGroupKeys();
    ClassifyMixedSuits(QueenTen, [1, 3, 6, 8, 10], [1, 1, 1, 1, 1], [1, 1, 1, 1, 1], false);
  }

  lemma QueenTenWritten()
    ensures multiset(QueenTenSpec) == multiset(QueenTen)
  {
  }

  lemma QueenTenAscending()
    ensures SortedBy(QueenTen, FaceScore)
  {
  }

  lemma TestQueenTen()
    ensures KeyOf(InHandOrder(QueenTenSpec)) == Some(Key(HighCard, [1, 3, 6, 8, 10]))
  {
    QueenTenKey();
    QueenTenWritten();
    QueenTenAscending();
    KeyOfSorted(QueenTenSpec, QueenTen);
  }

  lemma KingNineShape()
    ensures !IsFlush(KingNine) && Scores(KingNine) == [0, 1, 2, 7, 11] && Runs([0, 1, 2, 7, 11]) == [1, 1, 1, 1, 1]
  {
    assert KingNine[1].suit != KingNine[0].suit;
    assert Scores(KingNine) == [0, 1, 2, 7, 11];
    RunsOfAscending([0, 1, 2, 7, 11]);
  }

  lemma KingNineKey()
    ensures KeyOf(KingNine) == Some(Key(HighCard, [0, 1, 2, 7, 11]))
  {
    KingNineShape();
    SortedGroupKeys();
    ClassifyMixedSuits(KingNine, [0, 1, 2, 7, 11], [1, 1, 1, 1, 1], [1, 1, 1, 1, 1], false);
  }

  lemma KingNineWritten()
    ensures multiset(KingNineSpec) == multiset(KingNine)
  {
  }

  lemma KingNineAscending()
    ensures SortedBy(KingNine, FaceScore)
  {
  }

  lemma TestKingNine()
    ensures KeyOf(InHandOrder(KingNineSpec)) == Some(Key(HighCard, [0, 1, 2, 7, 11]))
  {
    KingNineKey();
    KingNineWritten();
    KingNineAscending();
    KeyOfSorted(KingNineSpec, KingNine);
  }

  lemma KingEightShape()
    ensures !IsFlush(KingEight) && Scores(KingEight) == [0, 1, 4, 6, 11] && Runs([0, 1, 4, 6, 11]) == [1, 1, 1, 1, 1]
  {
    assert KingEight[1].suit != KingEight[0].suit;
    assert Scores(KingEight) == [0, 1, 4, 6, 11];
    RunsOfAscending([0, 1, 4, 6, 11]);
  }

  lemma KingEightKey()
    ensures KeyOf(KingEight) == Some(Key(HighCard, [0, 1, 4, 6, 11]))
  {
    KingEightShape();
    SortedGroupKeys();
    ClassifyMixedSuits(KingEight, [0, 1, 4, 6, 11], [1, 1, 1, 1, 1], [1, 1, 1, 1, 1], false);
  }

  lemma KingEightWritten()
    ensures multiset(KingEightSpec) == multiset(KingEight)
  {
  }

  lemma KingEightAscending()
    ensures SortedBy(KingEight, FaceScore)
  {
  }

  lemma TestKingEight()
    ensures KeyOf(InHandOrder(KingEightSpec)) == Some(Key(HighCard, [0, 1, 4, 6, 11]))
  {
    KingEightKey();
    KingEightWritten();
    KingEightAscending();
    KeyOfSorted(KingEightSpec, KingEight);
  }

  // Comparing the hands of the test script.

  /** `Hand(a) < Hand(b)` for two specs whose hands the table ranks. */
  predicate Below(a: seq<Face>, b: seq<Face>)
    requires |a| == 5 && |b| == 5
  {
    var x, y := KeyOf(InHandOrder(a)), KeyOf(InHandOrder(b));
    x.Some? && y.Some? && KeyLess(x.value, y.value)
  }

  /** `Hand(a) == Hand(b)` for two specs whose hands the table ranks. */
  predicate Ties(a: seq<Face>, b: seq<Face>)
    requires |a| == 5 && |b| == 5
  {
    var x, y := KeyOf(InHandOrder(a)), KeyOf(InHandOrder(b));
    x.Some? && y.Some? && KeyEqual(x.value, y.value)
  }

  /** Two ranked hands compare as their keys do. */
  lemma CompareByKeys(a: seq<Face>, b: seq<Face>, ka: Key, kb: Key)
    requires |a| == 5 && |b| == 5
    requires KeyOf(InHandOrder(a)) == Some(ka) && KeyOf(InHandOrder(b)) == Some(kb)
    requires |ka.ranks| == |kb.ranks|
    ensures Below(a, b) == KeyLess(ka, kb) && Ties(a, b) == KeyEqual(ka, kb)
  {
  }

  /** The keys of the hands of the test script, compared. */
  lemma TestScriptKeys()
    ensures KeyEqual(Key(HighCard, [0, 2, 5, 11, 12]), Key(HighCard, [0, 2, 5, 11, 12]))
    ensures KeyLess(Key(HighCard, [1, 3, 6, 8, 10]), Key(HighCard, [0, 2, 5, 11, 12]))
    ensures !KeyLess(Key(HighCard, [0, 2, 5, 11, 12]), Key(HighCard, [1, 3, 6, 8, 10]))
    ensures KeyLess(Key(HighCard, [0, 1, 4, 6, 11]), Key(HighCard, [0, 1, 2, 7, 11]))
    ensures !KeyLess(Key(HighCard, [0, 1, 2, 7, 11]), Key(HighCard, [0, 1, 4, 6, 11]))
    ensures KeyLess(Key(StraightFlush, [0, 1, 2, 3, 12]), Key(RoyalFlush, [8, 9, 10, 11, 12]))
    ensures KeyLess(Key(StraightFlush, [0, 1, 2, 3, 4]), Key(StraightFlush, [0, 1, 2, 3, 12]))
    ensures KeyLess(Key(FourOfAKind, [3, 12, 12, 12, 12]), Key(StraightFlush, [0, 1, 2, 3, 4]))
    ensures KeyLess(Key(FullHouse, [3, 3, 12, 12, 12]), Key(FourOfAKind, [3, 12, 12, 12, 12]))
    ensures KeyLess(Key(Flush, [0, 1, 2, 4, 12]), Key(FullHouse, [3, 3, 12, 12, 12]))
    ensures KeyLess(Key(Straight, [0, 1, 2, 3, 12]), Key(Flush, [0, 1, 2, 4, 12]))
    ensures KeyLess(Key(Straight, [0, 1, 2, 3, 4]), Key(Straight, [0, 1, 2, 3, 12]))
    ensures KeyLess(Key(ThreeOfAKind, [2, 3, 12, 12, 12]), Key(Straight, [0, 1, 2, 3, 4]))
    ensures KeyLess(Key(TwoPair, [2, 2, 3, 12, 12]), Key(ThreeOfAKind, [2, 3, 12, 12, 12]))
    ensures KeyLess(Key(Pair, [0, 2, 2, 3, 12]), Key(TwoPair, [2, 2, 3, 12, 12]))
    ensures KeyLess(Key(HighCard, [0, 2, 3, 5, 12]), Key(Pair, [0, 2, 2, 3, 12]))
    ensures KeyLess(Key(HighCard, [0, 2, 3, 5, 7]), Key(HighCard, [0, 2, 3, 5, 12]))
  {
  }

  lemma TestAceKingTies()
    ensures Ties(AceKingASpec, AceKingBSpec) && Ties(AceKingBSpec, AceKingASpec)
  {
    TestAceKingA();
    TestAceKingB();
    TestScriptKeys();
    CompareByKeys(AceKingASpec, AceKingBSpec, Key(HighCard, [0, 2, 5, 11, 12]), Key(HighCard, [0, 2, 5, 11, 12]));
    CompareByKeys(AceKingBSpec, AceKingASpec, Key(HighCard, [0, 2, 5, 11, 12]), Key(HighCard, [0, 2, 5, 11, 12]));
  }

  lemma TestQueenTenBelowAceKing()
    ensures Below(QueenTenSpec, AceKingASpec) && !Below(AceKingASpec, QueenTenSpec)
  {
    TestQueenTen();
    TestAceKingA();
    TestScriptKeys();
    CompareByKeys(QueenTenSpec, AceKingASpec, Key(HighCard, [1, 3, 6, 8, 10]), Key(HighCard, [0, 2, 5, 11, 12]));
    CompareByKeys(AceKingASpec, QueenTenSpec, Key(HighCard, [0, 2, 5, 11, 12]), Key(HighCard, [1, 3, 6, 8, 10]));
  }

  lemma TestKingEightBelowKingNine()
    ensures Below(KingEightSpec, KingNineSpec) && !Below(KingNineSpec, KingEightSpec)
  {
    TestKingEight();
    TestKingNine();
    TestScriptKeys();
    CompareByKeys(KingEightSpec, KingNineSpec, Key(HighCard, [0, 1, 4, 6, 11]), Key(HighCard, [0, 1, 2, 7, 11]));
    CompareByKeys(KingNineSpec, KingEightSpec, Key(HighCard, [0, 1, 2, 7, 11]), Key(HighCard, [0, 1, 4, 6, 11]));
  }

  /** The comparisons of the test script: two ace-high hands of the same
      ranks are equal both ways, and between high cards the highest card
      that differs decides. */
  lemma TestScriptComparisons()
    ensures Ties(AceKingASpec, AceKingBSpec) && Ties(AceKingBSpec, AceKingASpec)
    ensures Below(QueenTenSpec, AceKingASpec) && !Below(AceKingASpec, QueenTenSpec)
    ensures Below(KingEightSpec, KingNineSpec) && !Below(KingNineSpec, KingEightSpec)
  {
    TestAceKingTies();
    TestQueenTenBelowAceKing();
    TestKingEightBelowKingNine();
  }

  // The steps of the chain of the test script, each hand below the one before.

  lemma TestStraightFlushWheelBelowRoyalFlushHand()
    ensures Below(StraightFlushWheelSpec, RoyalFlushHandSpec)
  {
    TestStraightFlushWheel();
    TestRoyalFlushHand();
    TestScriptKeys();
    CompareByKeys(StraightFlushWheelSpec, RoyalFlushHandSpec, Key(StraightFlush, [0, 1, 2, 3, 12]), Key(RoyalFlush, [8, 9, 10, 11, 12]));
  }

  lemma TestStraightFlushSixHighBelowStraightFlushWheel()
    ensures Below(StraightFlushSixHighSpec, StraightFlushWheelSpec)
  {
    TestStraightFlushSixHigh();
    TestStraightFlushWheel();
    TestScriptKeys();
    CompareByKeys(StraightFlushSixHighSpec, StraightFlushWheelSpec, Key(StraightFlush, [0, 1, 2, 3, 4]), Key(StraightFlush, [0, 1, 2, 3, 12]));
  }

  lemma TestFourAcesBelowStraightFlushSixHigh()
    ensures Below(FourAcesSpec, StraightFlushSixHighSpec)
  {
    TestFourAces();
    TestStraightFlushSixHigh();
    TestScriptKeys();
    CompareByKeys(FourAcesSpec, StraightFlushSixHighSpec, Key(FourOfAKind, [3, 12, 12, 12, 12]), Key(StraightFlush, [0, 1, 2, 3, 4]));
  }

  lemma TestAcesFullOfFivesBelowFourAces()
    ensures Below(AcesFullOfFivesSpec, FourAcesSpec)
  {
    TestAcesFullOfFives();
    TestFourAces();
    TestScriptKeys();
    CompareByKeys(AcesFullOfFivesSpec, FourAcesSpec, Key(FullHouse, [3, 3, 12, 12, 12]), Key(FourOfAKind, [3, 12, 12, 12, 12]));
  }

  lemma TestFlushAceHighBelowAcesFullOfFives()
    ensures Below(FlushAceHighSpec, AcesFullOfFivesSpec)
  {
    TestFlushAceHigh();
    TestAcesFullOfFives();
    TestScriptKeys();
    CompareByKeys(FlushAceHighSpec, AcesFullOfFivesSpec, Key(Flush, [0, 1, 2, 4, 12]), Key(FullHouse, [3, 3, 12, 12, 12]));
  }

  lemma TestStraightWheelBelowFlushAceHigh()
    ensures Below(StraightWheelSpec, FlushAceHighSpec)
  {
    TestStraightWheel();
    TestFlushAceHigh();
    TestScriptKeys();
    CompareByKeys(StraightWheelSpec, FlushAceHighSpec, Key(Straight, [0, 1, 2, 3, 12]), Key(Flush, [0, 1, 2, 4, 12]));
  }

  lemma TestStraightSixHighBelowStraightWheel()
    ensures Below(StraightSixHighSpec, StraightWheelSpec)
  {
    TestStraightSixHigh();
    TestStraightWheel();
    TestScriptKeys();
    CompareByKeys(StraightSixHighSpec, StraightWheelSpec, Key(Straight, [0, 1, 2, 3, 4]), Key(Straight, [0, 1, 2, 3, 12]));
  }

  lemma TestThreeAcesBelowStraightSixHigh()
    ensures Below(ThreeAcesSpec, StraightSixHighSpec)
  {
    TestThreeAces();
    TestStraightSixHigh();
    TestScriptKeys();
    CompareByKeys(ThreeAcesSpec, StraightSixHighSpec, Key(ThreeOfAKind, [2, 3, 12, 12, 12]), Key(Straight, [0, 1, 2, 3, 4]));
  }

  lemma TestAcesAndFoursBelowThreeAces()
    ensures Below(AcesAndFoursSpec, ThreeAcesSpec)
  {
    TestAcesAndFours();
    TestThreeAces();
    TestScriptKeys();
    CompareByKeys(AcesAndFoursSpec, ThreeAcesSpec, Key(TwoPair, [2, 2, 3, 12, 12]), Key(ThreeOfAKind, [2, 3, 12, 12, 12]));
  }

  lemma TestPairOfFoursBelowAcesAndFours()
    ensures Below(PairOfFoursSpec, AcesAndFoursSpec)
  {
    TestPairOfFours();
    TestAcesAndFours();
    TestScriptKeys();
    CompareByKeys(PairOfFoursSpec, AcesAndFoursSpec, Key(Pair, [0, 2, 2, 3, 12]), Key(TwoPair, [2, 2, 3, 12, 12]));
  }

  lemma TestAceHighBelowPairOfFours()
    ensures Below(AceHighSpec, PairOfFoursSpec)
  {
    TestAceHigh();
    TestPairOfFours();
    TestScriptKeys();
    CompareByKeys(AceHighSpec, PairOfFoursSpec, Key(HighCard, [0, 2, 3, 5, 12]), Key(Pair, [0, 2, 2, 3, 12]));
  }

  lemma TestNineHighBelowAceHigh()
    ensures Below(NineHighSpec, AceHighSpec)
  {
    TestNineHigh();
    TestAceHigh();
    TestScriptKeys();
    CompareByKeys(NineHighSpec, AceHighSpec, Key(HighCard, [0, 2, 3, 5, 7]), Key(HighCard, [0, 2, 3, 5, 12]));
  }

  /** The chain of the test script, from the royal flush down to the
      nine-high hand: each hand is below the one before it. The wheel
      (its ace scores 12) is above the six-high straight of its category. */
  lemma TestScriptChain()
    ensures Below(StraightFlushWheelSpec, RoyalFlushHandSpec)
    ensures Below(StraightFlushSixHighSpec, StraightFlushWheelSpec)
    ensures Below(FourAcesSpec, StraightFlushSixHighSpec)
    ensures Below(AcesFullOfFivesSpec, FourAcesSpec)
    ensures Below(FlushAceHighSpec, AcesFullOfFivesSpec)
    ensures Below(StraightWheelSpec, FlushAceHighSpec)
    ensures Below(StraightSixHighSpec, StraightWheelSpec)
    ensures Below(ThreeAcesSpec, StraightSixHighSpec)
    ensures Below(AcesAndFoursSpec, ThreeAcesSpec)
    ensures Below(PairOfFoursSpec, AcesAndFoursSpec)
    ensures Below(AceHighSpec, PairOfFoursSpec)
    ensures Below(NineHighSpec, AceHighSpec)
  {
    TestStraightFlushWheelBelowRoyalFlushHand();
    TestStraightFlushSixHighBelowStraightFlushWheel();
    TestFourAcesBelowStraightFlushSixHigh();
    TestAcesFullOfFivesBelowFourAces();
    TestFlushAceHighBelowAcesFullOfFives();
    TestStraightWheelBelowFlushAceHigh();
    TestStraightSixHighBelowStraightWheel();
    TestThreeAcesBelowStraightSixHigh();
    TestAcesAndFoursBelowThreeAces();
    TestPairOfFoursBelowAcesAndFours();
    TestAceHighBelowPairOfFours();
    TestNineHighBelowAceHigh();
  }
}
