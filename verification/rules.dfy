/**
  The scoring engine (model/rules.ts): points and hold validity of a hand of
  dice, and the bust test built on it.
 */
module Rules {
  import opened State

  /** Points of a hand, and whether every die in it was used by some rule. */
  datatype Score = Score(points: int, isValidHold: bool)

  // ---------------------------------------------------------------------------
  // Face values

  /** The face values of a list of dice, in order. */
  function Faces(dice: seq<Die>): (r: seq<int>)
    ensures |r| == |dice|
    ensures forall i :: 0 <= i < |dice| ==> r[i] == dice[i].value
  {
    if |dice| == 0 then [] else [dice[0].value] + Faces(dice[1..])
  }

  lemma FacesAppend(a: seq<Die>, b: seq<Die>)
    ensures Faces(a + b) == Faces(a) + Faces(b)
  {
  }

  // ---------------------------------------------------------------------------
  // The straight test: sort the faces and compare with the two straights.

  /** Each face is no smaller than the one before it. */
  ghost predicate Sorted(s: seq<int>) {
    forall i :: 0 < i < |s| ==> s[i - 1] <= s[i]
  }

  lemma SortedTail(s: seq<int>)
    requires Sorted(s) && |s| > 0
    ensures Sorted(s[1..])
  {
    forall i | 0 < i < |s| - 1 ensures s[1..][i - 1] <= s[1..][i] {
      assert s[1..][i - 1] == s[i] && s[1..][i] == s[i + 1];
    }
  }

  lemma {:induction false} SortedHeadLeast(s: seq<int>)
    requires Sorted(s)
    ensures forall i :: 0 <= i < |s| ==> s[0] <= s[i]
  {
    if |s| > 1 {
      SortedTail(s);
      SortedHeadLeast(s[1..]);
      assert forall i :: 1 <= i < |s| ==> s[1] <= s[1..][i - 1] == s[i];
    }
  }

  function Insert(x: int, s: seq<int>): seq<int> {
    if |s| == 0 then [x]
    else if x <= s[0] then [x] + s
    else [s[0]] + Insert(x, s[1..])
  }

  /** Insertion sort of the faces, standing for the source's `sort()`. */
  function SortFaces(s: seq<int>): seq<int> {
    if |s| == 0 then [] else Insert(s[0], SortFaces(s[1..]))
  }

  lemma {:induction false} InsertSorted(x: int, s: seq<int>)
    requires Sorted(s)
    ensures Sorted(Insert(x, s))
    ensures multiset(Insert(x, s)) == multiset(s) + multiset{x}
    ensures Insert(x, s)[0] == if |s| == 0 || x <= s[0] then x else s[0]
  {
    if |s| > 0 && x > s[0] {
      assert s == [s[0]] + s[1..];
      InsertSorted(x, s[1..]);
    }
  }

  /** The sort orders the faces and keeps every one of them. */
  lemma {:induction false} SortFacesSorted(s: seq<int>)
    ensures Sorted(SortFaces(s))
    ensures multiset(SortFaces(s)) == multiset(s)
  {
    if |s| > 0 {
      assert s == [s[0]] + s[1..];
      SortFacesSorted(s[1..]);
      InsertSorted(s[0], SortFaces(s[1..]));
    }
  }

  /** Two sorted sequences with the same elements are equal. */
  lemma {:induction false} SortedUnique(a: seq<int>, b: seq<int>)
    requires Sorted(a) && Sorted(b)
    requires multiset(a) == multiset(b)
    ensures a == b
  {
    if |a| == 0 {
      assert |multiset(b)| == 0;
    } else {
      assert |b| == |multiset(b)| == |multiset(a)| == |a|;
      assert a[0] in multiset(b);
      assert b[0] in multiset(a);
      SortedHeadLeast(a);
      SortedHeadLeast(b);
      assert a[0] == b[0] by {
        var i :| 0 <= i < |b| && b[i] == a[0];
        var j :| 0 <= j < |a| && a[j] == b[0];
        assert b[0] <= b[i] && a[0] <= a[j];
      }
      assert a == [a[0]] + a[1..];
      assert b == [b[0]] + b[1..];
      assert multiset(a[1..]) == multiset(a) - multiset{a[0]};
      assert multiset(b[1..]) == multiset(b) - multiset{b[0]};
      SortedTail(a);
      SortedTail(b);
      SortedUnique(a[1..], b[1..]);
    }
  }

  const SmallStraight: seq<int> := [1, 2, 3, 4, 5]
  const LargeStraight: seq<int> := [2, 3, 4, 5, 6]

  predicate IsStraight(faces: seq<int>) {
    var sorted := SortFaces(faces);
    sorted == SmallStraight || sorted == LargeStraight
  }

  lemma StraightsSorted()
    ensures Sorted(SmallStraight) && Sorted(LargeStraight)
  {
  }

  /** Sorting yields a given sorted sequence exactly when the multisets agree. */
  lemma SortFacesIff(faces: seq<int>, target: seq<int>)
    requires Sorted(target)
    ensures SortFaces(faces) == target <==> multiset(faces) == multiset(target)
  {
    SortFacesSorted(faces);
    if multiset(faces) == multiset(target) {
      SortedUnique(SortFaces(faces), target);
    }
  }

  /** The straight test depends only on which faces occur how often. */
  lemma StraightIffFaces(faces: seq<int>)
    ensures IsStraight(faces) <==>
      multiset(faces) == multiset(SmallStraight) || multiset(faces) == multiset(LargeStraight)
  {
    StraightsSorted();
    SortFacesIff(faces, SmallStraight);
    SortFacesIff(faces, LargeStraight);
  }

  // ---------------------------------------------------------------------------
  // Counting: the seven-slot tally of faces 0..6.

  /**
    The counts array the source builds with `reduce`: slot v counts the dice
    showing v. A face outside 0..6 lands outside the seven slots (NaN in the
    source), so it is never counted and never forms a group.
   */
  function Tally(faces: seq<int>): (t: seq<nat>)
    ensures |t| == 7
  {
    if |faces| == 0 then [0, 0, 0, 0, 0, 0, 0]
    else
      var t := Tally(faces[..|faces| - 1]);
      var v := faces[|faces| - 1];
      if 0 <= v < 7 then t[v := t[v] + 1] else t
  }

  /** Slot v of the tally is the number of dice showing v, for v in 0..6. */
  lemma {:induction false} TallyCounts(faces: seq<int>)
    ensures forall v :: 0 <= v < 7 ==> Tally(faces)[v] == multiset(faces)[v]
  {
    if |faces| > 0 {
      var init := faces[..|faces| - 1];
      assert faces == init + [faces[|faces| - 1]];
      TallyCounts(init);
    }
  }

  /** The base value of a group: 1000 for ones, 100 times the face otherwise. */
  function BaseValue(face: int): int {
    if face == 1 then 1000 else 100 * face
  }

  /** Points of `count` dice of the same `face` taken as one group. */
  function ScoreForCount(count: int, face: int): int {
    match count
    case 3 => BaseValue(face)
    case 4 => BaseValue(face) * 2
    case 5 => BaseValue(face) * 5
    case _ => 0
  }

  /** A face with three or more dice forms a group, which consumes those dice. */
  predicate Consumed(t: seq<nat>, face: int)
    requires |t| == 7
  {
    0 <= face < 7 && t[face] >= 3
  }

  /** Points of the groups among faces v..6, scanning slots in order. */
  function GroupPoints(t: seq<nat>, v: nat): int
    requires |t| == 7 && v <= 7
    decreases 7 - v
  {
    if v == 7 then 0
    else (if t[v] >= 3 then ScoreForCount(t[v], v) else 0) + GroupPoints(t, v + 1)
  }

  /** The faces no group consumed, in order. */
  function Leftover(faces: seq<int>, t: seq<nat>): seq<int>
    requires |t| == 7
  {
    if |faces| == 0 then []
    else (if Consumed(t, faces[0]) then [] else [faces[0]]) + Leftover(faces[1..], t)
  }

  /** A leftover 1 is worth 100 and a leftover 5 is worth 50; others nothing. */
  function SingleValue(face: int): int {
    if face == 1 then 100 else if face == 5 then 50 else 0
  }

  function SinglePoints(faces: seq<int>): int {
    if |faces| == 0 then 0 else SingleValue(faces[0]) + SinglePoints(faces[1..])
  }

  /** Scoring by groups and single dice, used when there is no straight. */
  function ComboPoints(faces: seq<int>): Score {
    var t := Tally(faces);
    var left := Leftover(faces, t);
    Score(GroupPoints(t, 0) + SinglePoints(left), |left| == 0)
  }

  /** `pointsForDice` on the face values: a straight short-circuits the rest. */
  function PointsForFaces(faces: seq<int>): Score {
    if IsStraight(faces) then Score(1500, true) else ComboPoints(faces)
  }

  function PointsForDice(dice: seq<Die>): Score {
    PointsForFaces(Faces(dice))
  }

  /** A hand is busted when it scores nothing. */
  predicate IsBusted(dice: seq<Die>) {
    PointsForDice(dice).points == 0
  }

  // ---------------------------------------------------------------------------
  // A reference definition: points face by face.

  /** What all dice of one face contribute when there is no straight. */
  function FacePoints(face: int, count: nat): int {
    if count >= 3 then ScoreForCount(count, face)
    else if face == 1 then 100 * count
    else if face == 5 then 50 * count
    else 0
  }

  /** Points of a non-straight hand, summed over the faces 0..6. */
  function ReferencePoints(m: multiset<int>): int {
    FacePoints(0, m[0]) + FacePoints(1, m[1]) + FacePoints(2, m[2]) + FacePoints(3, m[3])
      + FacePoints(4, m[4]) + FacePoints(5, m[5]) + FacePoints(6, m[6])
  }

  lemma {:induction false} SinglePointsCount(faces: seq<int>)
    ensures SinglePoints(faces) == 100 * multiset(faces)[1] + 50 * multiset(faces)[5]
  {
    if |faces| > 0 {
      assert faces == [faces[0]] + faces[1..];
      SinglePointsCount(faces[1..]);
    }
  }

  lemma {:induction false} LeftoverCount(faces: seq<int>, t: seq<nat>, x: int)
    requires |t| == 7
    ensures multiset(Leftover(faces, t))[x] == if Consumed(t, x) then 0 else multiset(faces)[x]
  {
    if |faces| > 0 {
      assert faces == [faces[0]] + faces[1..];
      LeftoverCount(faces[1..], t, x);
    }
  }

  lemma {:induction false} LeftoverEmpty(faces: seq<int>, t: seq<nat>)
    requires |t| == 7
    ensures |Leftover(faces, t)| == 0 <==> forall x :: x in faces ==> Consumed(t, x)
  {
    if |faces| > 0 {
      assert faces == [faces[0]] + faces[1..];
      LeftoverEmpty(faces[1..], t);
    }
  }

  /** Points of a hand without a straight equal the face-by-face reference. */
  lemma ComboMatchesReference(faces: seq<int>)
    ensures ComboPoints(faces).points == ReferencePoints(multiset(faces))
  {
    var t := Tally(faces);
    var m := multiset(faces);
    var left := Leftover(faces, t);
    TallyCounts(faces);
    SinglePointsCount(left);
    LeftoverCount(faces, t, 1);
    LeftoverCount(faces, t, 5);
    assert GroupPoints(t, 0) + SinglePoints(left) == ReferencePoints(m);
  }

  /**
    A hand is a valid hold exactly when it is a straight or every die shows a
    face 0..6 that occurs at least three times; leftover single 1s and 5s
    score but spoil the hold.
   */
  lemma ValidHoldIff(faces: seq<int>)
    ensures PointsForFaces(faces).isValidHold <==>
      IsStraight(faces) || forall x :: x in faces ==> 0 <= x < 7 && multiset(faces)[x] >= 3
  {
    var t := Tally(faces);
    TallyCounts(faces);
    LeftoverEmpty(faces, t);
  }

  lemma EmptyHandScores()
    ensures PointsForFaces([]) == Score(0, true)
  {
    assert SortFaces([]) == [];
    assert Leftover([], Tally([])) == [];
  }

  /**
    Dice whose faces are, in any order, 1-2-3-4-5 or 2-3-4-5-6 are exactly
    five and score 1500 with every die used; no other rule applies.
   */
  lemma StraightScores(faces: seq<int>)
    requires multiset(faces) == multiset(SmallStraight) || multiset(faces) == multiset(LargeStraight)
    ensures |faces| == 5
    ensures PointsForFaces(faces) == Score(1500, true)
  {
    StraightIffFaces(faces);
    assert |faces| == |multiset(faces)|;
  }

  /** Points are never negative. */
  lemma PointsNonNegative(faces: seq<int>)
    ensures PointsForFaces(faces).points >= 0
  {
    if !IsStraight(faces) {
      ComboMatchesReference(faces);
    }
  }

  /** The result depends only on the multiset of faces: order never matters. */
  lemma PermutationInvariant(a: seq<int>, b: seq<int>)
    requires multiset(a) == multiset(b)
    ensures PointsForFaces(a) == PointsForFaces(b)
  {
    StraightIffFaces(a);
    StraightIffFaces(b);
    ValidHoldIff(a);
    ValidHoldIff(b);
    if !IsStraight(a) {
      ComboMatchesReference(a);
      ComboMatchesReference(b);
      assert forall x :: x in a <==> x in b by {
        forall x ensures x in a <==> x in b {
          assert x in a <==> x in multiset(a);
          assert x in b <==> x in multiset(b);
        }
      }
    }
  }

  lemma CountBoundedMultiset(m: multiset<int>, x: int)
    ensures m[x] <= |m|
  {
    if m[x] > 0 {
      var m' := m - multiset{x};
      CountBoundedMultiset(m', x);
    }
  }

  lemma FacePointsSign(face: int, count: nat)
    requires 0 <= face <= 6 && count <= 5
    ensures FacePoints(face, count) >= 0
    ensures face == 0 ==> FacePoints(face, count) == 0
    ensures 1 <= face ==>
      (FacePoints(face, count) == 0 <==> count < 3 && (face == 1 || face == 5 ==> count == 0))
  {
  }

  /**
    A hand of at most five dice is busted exactly when it is no straight, has
    no 1 and no 5, and no face 2, 3, 4 or 6 occurs three times or more.
   */
  lemma BustIff(dice: seq<Die>)
    requires |dice| <= 5
    ensures IsBusted(dice) <==>
      var m := multiset(Faces(dice));
      && !IsStraight(Faces(dice))
      && m[1] == 0 && m[5] == 0
      && m[2] < 3 && m[3] < 3 && m[4] < 3 && m[6] < 3
  {
    var faces := Faces(dice);
    var m := multiset(faces);
    if !IsStraight(faces) {
      ComboMatchesReference(faces);
      assert |m| <= 5;
      CountBoundedMultiset(m, 0);
      CountBoundedMultiset(m, 1);
      CountBoundedMultiset(m, 2);
      CountBoundedMultiset(m, 3);
      CountBoundedMultiset(m, 4);
      CountBoundedMultiset(m, 5);
      CountBoundedMultiset(m, 6);
      FacePointsSign(0, m[0]);
      FacePointsSign(1, m[1]);
      FacePointsSign(2, m[2]);
      FacePointsSign(3, m[3]);
      FacePointsSign(4, m[4]);
      FacePointsSign(5, m[5]);
      FacePointsSign(6, m[6]);
    }
  }

  /**
    Groups of three, four and five score one, two and five times the base;
    any other count scores nothing. The base is 1000 for ones and 100 times
    the face otherwise.
   */
  lemma ScoreForCountTable(count: int, face: int)
    ensures count == 3 ==> ScoreForCount(count, face) == BaseValue(face)
    ensures count == 4 ==> ScoreForCount(count, face) == 2 * BaseValue(face)
    ensures count == 5 ==> ScoreForCount(count, face) == 5 * BaseValue(face)
    ensures count != 3 && count != 4 && count != 5 ==> ScoreForCount(count, face) == 0
    ensures BaseValue(face) == if face == 1 then 1000 else 100 * face
  {
  }

  /** A single 1 and a single 5 score 150, but leftover singles spoil the hold. */
  lemma SinglesSpoilHold()
    ensures PointsForFaces([1, 5]) == Score(150, false)
  {
    var f := [1, 5];
    var m := multiset(f);
    assert !IsStraight(f) by {
      StraightIffFaces(f);
      assert |m| == 2;
    }
    assert ComboPoints(f).points == 150 by {
      assert m[1] == 1 && m[5] == 1 && m[0] == 0 && m[2] == 0 && m[3] == 0 && m[4] == 0 && m[6] == 0;
      ComboMatchesReference(f);
    }
    assert !PointsForFaces(f).isValidHold by {
      ValidHoldIff(f);
      assert 1 in f && m[1] == 1;
    }
  }

  /** Three 1s make a valid hold worth 1000. */
  lemma TripleOnesHold()
    ensures PointsForFaces([1, 1, 1]) == Score(1000, true)
  {
    var f := [1, 1, 1];
    var m := multiset(f);
    assert !IsStraight(f) by {
      StraightIffFaces(f);
      assert |m| == 3;
    }
    assert ComboPoints(f).points == 1000 by {
      assert m[1] == 3 && m[0] == 0 && m[2] == 0 && m[3] == 0 && m[4] == 0 && m[5] == 0 && m[6] == 0;
      ComboMatchesReference(f);
      assert FacePoints(1, m[1]) == 1000;
      assert FacePoints(0, m[0]) == 0 && FacePoints(2, m[2]) == 0 && FacePoints(3, m[3]) == 0;
      assert FacePoints(4, m[4]) == 0 && FacePoints(5, m[5]) == 0 && FacePoints(6, m[6]) == 0;
    }
    assert PointsForFaces(f).isValidHold by {
      ValidHoldIff(f);
      forall x | x in f
        ensures 0 <= x < 7 && m[x] >= 3
      {
        assert x == 1;
      }
    }
  }

  /** A 4 and a 6 score nothing. */
  lemma NothingScores()
    ensures PointsForFaces([4, 6]) == Score(0, false)
  {
    var f := [4, 6];
    var m := multiset(f);
    assert !IsStraight(f) by {
      StraightIffFaces(f);
      assert |m| == 2;
    }
    assert ComboPoints(f).points == 0 by {
      assert m[4] == 1 && m[6] == 1 && m[0] == 0 && m[1] == 0 && m[2] == 0 && m[3] == 0 && m[5] == 0;
      ComboMatchesReference(f);
    }
    assert !PointsForFaces(f).isValidHold by {
      ValidHoldIff(f);
      assert 4 in f && m[4] == 1;
    }
  }
}
