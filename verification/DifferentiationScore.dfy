/** When the differentiation score is the proportion its name promises
  * (`half_l1_share_distance_0_to_1` in `_dimension_profile`). */
module DifferentiationScore {
  import opened Wrappers
  import opened Totals
  import opened RealArith
  import opened MemberShares

  lemma TotalOfShares<T>(xs: seq<T>, f: T -> real, whole: real, share: T -> real)
    requires whole != 0.0 && whole == Total(xs, f)
    requires forall x :: share(x) == f(x) / whole
    ensures Total(xs, share) == 1.0
  {
    hide Total;
    var one := 1.0 / whole;
    forall i | 0 <= i < |xs| ensures share(xs[i]) == one * f(xs[i]) + 0.0 * f(xs[i]) {
      ShareOfTotal(f(xs[i]), whole, 1.0);
    }
    TotalLinear(xs, f, f, share, one, 0.0);
    assert one * whole == 1.0;
  }

  lemma UnknownSharesHaveNoDistance(members: seq<Member>, b: real, t: real)
    requires AnnotatedBy(members, b, t) && (b == 0.0 || t == 0.0)
    ensures Differentiation(members) == 0.0
  {
    RankedAreAnnotated(members, b, t);
    TotalConstant(ExcessRanked(members), ShareDistance, 0.0);
  }

  // ---- What the members keep ----

  /** The part of its share that a measured member has in both periods, or the mean of both shares. */
  function KeptShare(m: Member, u: real, v: real): real { if Localizable(m) then Min(u, v) else (u + v) / 2.0 }

  function KeptOf(b: real, t: real): Member -> real
    requires b != 0.0 && t != 0.0
  {
    m => KeptShare(m, Baseline(m) / b, Target(m) / t)
  }

  function BothShares(b: real, t: real): Member -> real
    requires b != 0.0 && t != 0.0
  {
    m => Baseline(m) / b + Target(m) / t
  }

  /** What a member adds to twice the score. */
  function Moved(m: Member): real { if HasExcess(m) then ShareDistance(m) else 0.0 }

  lemma MovedOrKept(m: Member, b: real, t: real)
    requires b != 0.0 && t != 0.0 && m == Annotated(m, b, t)
    ensures Moved(m) == 1.0 * BothShares(b, t)(m) + -2.0 * KeptOf(b, t)(m)
  {
    var u, v := Baseline(m) / b, Target(m) / t;
    assert m.baselineShare == Some(u) && m.targetShare == Some(v) && m.excessDelta.Some?;
    assert KeptOf(b, t)(m) == KeptShare(m, u, v) && BothShares(b, t)(m) == u + v;
    hide Annotated;
  }

  lemma TotalOfBothShares(members: seq<Member>, b: real, t: real)
    requires b != 0.0 && t != 0.0 && b == Total(members, Baseline) && t == Total(members, Target)
    ensures Total(members, BothShares(b, t)) == 2.0
  {
    var before, after := (m: Member) => Baseline(m) / b, (m: Member) => Target(m) / t;
    TotalOfShares(members, Baseline, b, before);
    TotalOfShares(members, Target, t, after);
    hide Total;
    TotalLinear(members, before, after, BothShares(b, t), 1.0, 1.0);
  }

  /** The score is what is missing from one in the shares that are kept. */
  lemma ScoreIsWhatIsNotKept(members: seq<Member>, b: real, t: real)
    requires AnnotatedBy(members, b, t) && b != 0.0 && t != 0.0
    ensures Differentiation(members) == 1.0 - Total(members, KeptOf(b, t))
  {
    hide Annotated, Total, Moved, Filter, KeptOf, BothShares, HasExcess, ShareDistance;
    forall m ensures Moved(m) == if HasExcess(m) then ShareDistance(m) else 0.0 { MovedUnfold(m); }
    TotalOfFilter(members, HasExcess, ShareDistance, Moved);
    TotalOfBothShares(members, b, t);
    forall i | 0 <= i < |members|
      ensures Moved(members[i]) == 1.0 * BothShares(b, t)(members[i]) + -2.0 * KeptOf(b, t)(members[i])
    {
      MovedOrKept(members[i], b, t);
    }
    TotalLinear(members, BothShares(b, t), KeptOf(b, t), Moved, 1.0, -2.0);
  }

  lemma MovedUnfold(m: Member)
    ensures Moved(m) == if HasExcess(m) then ShareDistance(m) else 0.0
  {
  }

  /** Whatever the signs, the score is a proportion exactly when what the members keep is not negative in
    * total, or a total is zero. */
  lemma ProportionExactlyWhenKept(members: seq<Member>, b: real, t: real)
    requires AnnotatedBy(members, b, t)
    ensures 0.0 <= Differentiation(members)
    ensures Differentiation(members) <= 1.0 <==> b == 0.0 || t == 0.0 || Total(members, KeptOf(b, t)) >= 0.0
  {
    DifferentiationIsNotNegative(members);
    if b == 0.0 || t == 0.0 {
      UnknownSharesHaveNoDistance(members, b, t);
    } else {
      ScoreIsWhatIsNotKept(members, b, t);
    }
  }

  /** Without negative amounts it always is. */
  lemma DifferentiationBounds(members: seq<Member>, b: real, t: real)
    requires AnnotatedBy(members, b, t)
    requires forall i | 0 <= i < |members| :: 0.0 <= members[i].baselineAmount && 0.0 <= members[i].targetAmount
    ensures 0.0 <= Differentiation(members) <= 1.0
  {
    ProportionExactlyWhenKept(members, b, t);
    TotalNonNegative(members, Baseline);
    TotalNonNegative(members, Target);
    if b != 0.0 && t != 0.0 {
      hide AnnotatedBy, Differentiation, Total;
      forall i | 0 <= i < |members| ensures 0.0 <= KeptOf(b, t)(members[i]) {
        LeDiv(0.0, members[i].baselineAmount, b);
        LeDiv(0.0, members[i].targetAmount, t);
      }
      TotalNonNegative(members, KeptOf(b, t));
    }
  }

  // ---- For every target ----

  function Retargeted(members: seq<Member>, targets: seq<real>): (r: seq<Member>)
    requires |targets| == |members|
    ensures |r| == |members| && forall i | 0 <= i < |r| :: r[i] == members[i].(targetAmount := targets[i])
  {
    seq(|members|, i requires 0 <= i < |members| => members[i].(targetAmount := targets[i]))
  }

  /** The members with these target amounts, annotated. */
  function WithTargets(members: seq<Member>, targets: seq<real>): seq<Member>
    requires |targets| == |members|
  {
    var raw := Retargeted(members, targets);
    Map(raw, AnnotatedMember(Total(raw, Baseline), Total(raw, Target)))
  }

  ghost predicate NonNegative(xs: seq<real>) { forall i | 0 <= i < |xs| :: 0.0 <= xs[i] }

  /** The score is a proportion for every target without negative amounts. */
  ghost predicate AlwaysProportion(members: seq<Member>) {
    forall targets: seq<real> | |targets| == |members| && NonNegative(targets) ::
      Differentiation(WithTargets(members, targets)) <= 1.0
  }

  lemma WithTargetsFacts(members: seq<Member>, targets: seq<real>)
    requires |targets| == |members|
    ensures var r := WithTargets(members, targets);
      && |r| == |members|
      && AnnotatedBy(r, Total(members, Baseline), Total(targets, Identity()))
      && forall i | 0 <= i < |r| ::
           && r[i].baselineAmount == members[i].baselineAmount && r[i].targetAmount == targets[i]
           && (Localizable(r[i]) <==> Localizable(members[i]))
  {
    var raw, r := Retargeted(members, targets), WithTargets(members, targets);
    var b, t := Total(raw, Baseline), Total(raw, Target);
    TotalAgree(raw, members, Baseline, Baseline);
    TotalAgree(raw, targets, Target, Identity());
    AnnotatingKeepsAmounts(raw, r, b, t);
    hide Total;
    forall i | 0 <= i < |r| ensures r[i] == Annotated(r[i], b, t) { AnnotatedTwice(raw[i], b, t); }
  }

  /** What a member keeps at least, of a target that passes it by, and how much more of one that goes to it
    * alone. */
  function LowShare(m: Member, u: real): real { if Localizable(m) then Min(u, 0.0) else u / 2.0 }

  function RoomShare(m: Member, u: real): real { if Localizable(m) then Min(Max(u, 0.0), 1.0) else 0.5 }

  function Low(b: real): Member -> real
    requires b != 0.0
  {
    m => LowShare(m, Baseline(m) / b)
  }

  function Room(b: real): Member -> real
    requires b != 0.0
  {
    m => RoomShare(m, Baseline(m) / b)
  }

  lemma KeptAtLeast(m: Member, u: real, v: real, w: real)
    requires 0.0 <= v <= 1.0 && w == v * RoomShare(m, u)
    ensures KeptShare(m, u, v) >= LowShare(m, u) + w
    ensures v == 0.0 || v == 1.0 ==> KeptShare(m, u, v) == LowShare(m, u) + w
  {
    var r := RoomShare(m, u);
    assert w == v * r;
    if Localizable(m) && 0.0 < u < 1.0 {
      assert r == u && w == v * u == u * v;
      ProductMonotone(v, 1.0, u);
      ProductMonotone(u, 1.0, v);
    } else {
      assert r == 0.0 || r == 1.0 || r == 0.5;
    }
  }

  /** A target that is spread over members lets them keep at least the mean of what targets that go to one
    * of them alone do. */
  function Spread(b: real, t: real): Member -> real
    requires b != 0.0 && t != 0.0
  {
    m => Target(m) / t * Room(b)(m)
  }

  lemma PartAtMostWhole<T>(xs: seq<T>, f: T -> real, i: nat)
    requires i < |xs| && forall j | 0 <= j < |xs| :: 0.0 <= f(xs[j])
    ensures f(xs[i]) <= Total(xs, f)
  {
    TotalExtract(xs, i, f);
    var rest := RemoveAt(xs, i);
    forall j | 0 <= j < |rest| ensures 0.0 <= f(rest[j]) { assert rest[j] == xs[if j < i then j else j + 1]; }
    TotalNonNegative(rest, f);
  }

  lemma OnlyOneCounts<T>(xs: seq<T>, f: T -> real, i: nat)
    requires i < |xs| && forall j | 0 <= j < |xs| && j != i :: f(xs[j]) == 0.0
    ensures Total(xs, f) == f(xs[i])
  {
    TotalExtract(xs, i, f);
    var rest := RemoveAt(xs, i);
    forall j | 0 <= j < |rest| ensures f(rest[j]) == 0.0 { assert rest[j] == xs[if j < i then j else j + 1]; }
    TotalConstant(rest, f, 0.0);
  }

  function LowWithSpread(b: real, t: real): Member -> real
    requires b != 0.0 && t != 0.0
  {
    m => Low(b)(m) + Spread(b, t)(m)
  }

  lemma TotalOfLowAndSpread(members: seq<Member>, b: real, t: real)
    requires b != 0.0 && t != 0.0
    ensures Total(members, LowWithSpread(b, t)) == Total(members, Low(b)) + Total(members, Spread(b, t))
  {
    forall i | 0 <= i < |members|
      ensures LowWithSpread(b, t)(members[i]) == 1.0 * Low(b)(members[i]) + 1.0 * Spread(b, t)(members[i])
    {
      SumOfTwo(members[i], b, t);
    }
    hide Total, Low, Spread, LowWithSpread;
    TotalLinear(members, Low(b), Spread(b, t), LowWithSpread(b, t), 1.0, 1.0);
  }

  lemma SumOfTwo(m: Member, b: real, t: real)
    requires b != 0.0 && t != 0.0
    ensures LowWithSpread(b, t)(m) == Low(b)(m) + Spread(b, t)(m)
  {
    hide Low, Spread;
  }

  lemma LowAndSpread(members: seq<Member>, b: real, t: real)
    requires b != 0.0 && t > 0.0 && t == Total(members, Target)
    requires forall i | 0 <= i < |members| :: 0.0 <= members[i].targetAmount
    ensures Total(members, KeptOf(b, t)) >= Total(members, Low(b)) + Total(members, Spread(b, t))
  {
    hide Low, Spread, KeptOf, LowWithSpread, Total;
    TotalOfLowAndSpread(members, b, t);
    forall i | 0 <= i < |members| ensures LowWithSpread(b, t)(members[i]) <= KeptOf(b, t)(members[i]) {
      SumOfTwo(members[i], b, t);
      LowAndSpreadOfOne(members, b, t, i);
    }
    TotalMonotone(members, LowWithSpread(b, t), KeptOf(b, t));
  }

  /** Where each member gets all or nothing, that is what they keep. */
  lemma AllOrNothing(members: seq<Member>, b: real, t: real)
    requires b != 0.0 && t > 0.0 && t == Total(members, Target)
    requires forall i | 0 <= i < |members| :: members[i].targetAmount == 0.0 || members[i].targetAmount == t
    ensures Total(members, KeptOf(b, t)) == Total(members, Low(b)) + Total(members, Spread(b, t))
  {
    hide Low, Spread, KeptOf, LowWithSpread, Total;
    TotalOfLowAndSpread(members, b, t);
    forall i | 0 <= i < |members| ensures LowWithSpread(b, t)(members[i]) == KeptOf(b, t)(members[i]) {
      SumOfTwo(members[i], b, t);
      LowAndSpreadOfOne(members, b, t, i);
    }
    TotalAgree(members, members, LowWithSpread(b, t), KeptOf(b, t));
  }

  lemma LowAndSpreadOfOne(members: seq<Member>, b: real, t: real, i: nat)
    requires b != 0.0 && t > 0.0 && t == Total(members, Target) && i < |members|
    requires forall j | 0 <= j < |members| :: 0.0 <= members[j].targetAmount
    ensures var m := members[i];
      && Low(b)(m) + Spread(b, t)(m) <= KeptOf(b, t)(m)
      && (m.targetAmount == 0.0 || m.targetAmount == t ==> Low(b)(m) + Spread(b, t)(m) == KeptOf(b, t)(m))
  {
    var m := members[i];
    PartAtMostWhole(members, Target, i);
    hide Total, KeptShare, LowShare, RoomShare;
    SharesAddUp(m, b, t, Baseline(m) / b, Target(m) / t);
  }

  lemma SharesAddUp(m: Member, b: real, t: real, u: real, v: real)
    requires b != 0.0 && t > 0.0 && 0.0 <= m.targetAmount <= t && u == Baseline(m) / b && v == Target(m) / t
    ensures Low(b)(m) + Spread(b, t)(m) <= KeptOf(b, t)(m)
    ensures m.targetAmount == 0.0 || m.targetAmount == t ==> Low(b)(m) + Spread(b, t)(m) == KeptOf(b, t)(m)
  {
    hide KeptShare, LowShare, RoomShare;
    LeDiv(0.0, m.targetAmount, t);
    DivLe(m.targetAmount, t, 1.0);
    if m.targetAmount == t { QuotientOfItself(t); }
    KeptAtLeast(m, u, v, v * RoomShare(m, u));
    assert Low(b)(m) == LowShare(m, u) && Room(b)(m) == RoomShare(m, u);
  }

  /** There is room for the target wherever it goes. */
  ghost predicate LeavesRoom(members: seq<Member>, b: real)
    requires b != 0.0
  {
    forall i | 0 <= i < |members| :: Total(members, Low(b)) + Room(b)(members[i]) >= 0.0
  }

  function Shared(t: real): Member -> real
    requires t != 0.0
  {
    m => Target(m) / t
  }

  function SharedRoom(b: real, t: real, low: real): Member -> real
    requires b != 0.0 && t != 0.0
  {
    m => Shared(t)(m) * (low + Room(b)(m))
  }

  lemma SharedRoomSplits(m: Member, b: real, t: real, low: real)
    requires b != 0.0 && t != 0.0
    ensures SharedRoom(b, t, low)(m) == low * Shared(t)(m) + 1.0 * Spread(b, t)(m)
  {
    hide Room;
    ShareOfRoom(Shared(t)(m), low, Room(b)(m), Spread(b, t)(m));
  }

  lemma ShareOfRoom(share: real, low: real, room: real, spread: real)
    requires spread == share * room
    ensures share * (low + room) == low * share + 1.0 * spread
  {
  }

  lemma SharedRoomIsLinear(members: seq<Member>, b: real, t: real, low: real)
    requires b != 0.0 && t != 0.0
    ensures Total(members, SharedRoom(b, t, low))
            == low * Total(members, Shared(t)) + 1.0 * Total(members, Spread(b, t))
  {
    hide *;
    forall i | 0 <= i < |members|
      ensures SharedRoom(b, t, low)(members[i]) == low * Shared(t)(members[i]) + 1.0 * Spread(b, t)(members[i])
    {
      SharedRoomSplits(members[i], b, t, low);
    }
    TotalLinear(members, Shared(t), Spread(b, t), SharedRoom(b, t, low), low, 1.0);
  }

  lemma SharedRoomIsNotNegative(members: seq<Member>, b: real, t: real, low: real)
    requires b != 0.0 && t > 0.0
    requires forall i | 0 <= i < |members| :: 0.0 <= members[i].targetAmount && low + Room(b)(members[i]) >= 0.0
    ensures Total(members, SharedRoom(b, t, low)) >= 0.0
  {
    hide Total, Room;
    forall i | 0 <= i < |members| ensures SharedRoom(b, t, low)(members[i]) >= 0.0 {
      LeDiv(0.0, members[i].targetAmount, t);
      ProductMonotone(0.0, low + Room(b)(members[i]), Shared(t)(members[i]));
    }
    TotalNonNegative(members, SharedRoom(b, t, low));
  }

  lemma SharesAreAll(members: seq<Member>, t: real)
    requires t != 0.0 && t == Total(members, Target)
    ensures Total(members, Shared(t)) == 1.0
  {
    TotalOfShares(members, Target, t, Shared(t));
  }

  lemma SpreadWithRoom(members: seq<Member>, b: real, t: real)
    requires b != 0.0 && t > 0.0 && t == Total(members, Target) && LeavesRoom(members, b)
    requires forall i | 0 <= i < |members| :: 0.0 <= members[i].targetAmount
    ensures Total(members, Low(b)) + Total(members, Spread(b, t)) >= 0.0
  {
    hide Total, Room, Low, Spread, Shared, SharedRoom;
    var low := Total(members, Low(b));
    SharesAreAll(members, t);
    SharedRoomIsLinear(members, b, t, low);
    SharedRoomIsNotNegative(members, b, t, low);
  }

  lemma RoomDoesNotSeeTargets(members: seq<Member>, r: seq<Member>, b: real)
    requires b != 0.0 && |r| == |members|
    requires forall i | 0 <= i < |r| ::
               r[i].baselineAmount == members[i].baselineAmount && (Localizable(r[i]) <==> Localizable(members[i]))
    ensures Total(r, Low(b)) == Total(members, Low(b))
    ensures forall i | 0 <= i < |r| :: Room(b)(r[i]) == Room(b)(members[i])
    ensures LeavesRoom(r, b) <==> LeavesRoom(members, b)
  {
    TotalAgree(r, members, Low(b), Low(b));
    hide Total;
  }

  lemma RoomIsEnough(members: seq<Member>, b: real, targets: seq<real>)
    requires b != 0.0 && b == Total(members, Baseline) && LeavesRoom(members, b)
    requires |targets| == |members| && NonNegative(targets)
    ensures Differentiation(WithTargets(members, targets)) <= 1.0
  {
    var r, t := WithTargets(members, targets), Total(targets, Identity());
    WithTargetsFacts(members, targets);
    RoomDoesNotSeeTargets(members, r, b);
    ProportionExactlyWhenKept(r, b, t);
    TotalNonNegative(targets, Identity());
    hide Total, Differentiation, WithTargets, LeavesRoom;
    if t > 0.0 {
      SpreadWithRoom(r, b, t);
      LowAndSpread(r, b, t);
    }
  }

  /** The whole target on one member. */
  function AllOn(n: nat, k: nat): (r: seq<real>)
    ensures |r| == n && forall i | 0 <= i < n :: r[i] == if i == k then 1.0 else 0.0
  {
    seq(n, i => if i == k then 1.0 else 0.0)
  }

  lemma RoomWhereAllWent(r: seq<Member>, b: real, k: nat)
    requires b != 0.0 && k < |r| && AnnotatedBy(r, b, 1.0) && Differentiation(r) <= 1.0
    requires forall i | 0 <= i < |r| :: r[i].targetAmount == if i == k then 1.0 else 0.0
    ensures Total(r, Low(b)) + Room(b)(r[k]) >= 0.0
  {
    hide Total, Differentiation, Room, Low, KeptOf, Spread, Annotated;
    ProportionExactlyWhenKept(r, b, 1.0);
    AllOrNothing(r, b, 1.0);
    SpreadOfTheOne(r, b, k);
  }

  lemma RoomIsNeeded(members: seq<Member>, b: real, k: nat)
    requires b != 0.0 && b == Total(members, Baseline) && k < |members|
    requires Differentiation(WithTargets(members, AllOn(|members|, k))) <= 1.0
    ensures Total(members, Low(b)) + Room(b)(members[k]) >= 0.0
  {
    hide Total, Differentiation, WithTargets, LeavesRoom, Room, Low, AnnotatedBy, AllOn;
    var targets := AllOn(|members|, k);
    var r := WithTargets(members, targets);
    OnlyOneCounts(targets, Identity(), k);
    WithTargetsFacts(members, targets);
    RoomDoesNotSeeTargets(members, r, b);
    RoomWhereAllWent(r, b, k);
  }

  lemma SpreadOfTheOne(r: seq<Member>, b: real, k: nat)
    requires b != 0.0 && k < |r| && forall i | 0 <= i < |r| :: r[i].targetAmount == if i == k then 1.0 else 0.0
    ensures Total(r, Spread(b, 1.0)) == Room(b)(r[k])
  {
    hide Total, Room, Spread;
    forall i | 0 <= i < |r| ensures Spread(b, 1.0)(r[i]) == if i == k then Room(b)(r[k]) else 0.0 {
      SpreadOfAll(r[i], b);
    }
    OnlyOneCounts(r, Spread(b, 1.0), k);
  }

  lemma SpreadOfAll(m: Member, b: real)
    requires b != 0.0 && (m.targetAmount == 0.0 || m.targetAmount == 1.0)
    ensures Spread(b, 1.0)(m) == if m.targetAmount == 0.0 then 0.0 else Room(b)(m)
  {
    hide Room;
    var room, share := Room(b)(m), m.targetAmount / 1.0;
    assert share == m.targetAmount && Spread(b, 1.0)(m) == share * room;
  }

  /** The score is a proportion for every target without negative amounts exactly when the baseline total is
    * zero or the baseline shares leave room wherever the target goes. */
  lemma AlwaysProportionExactly(members: seq<Member>, b: real)
    requires b == Total(members, Baseline)
    ensures AlwaysProportion(members) <==> b == 0.0 || LeavesRoom(members, b)
  {
    hide Total, Differentiation, WithTargets, Room, Low;
    if b == 0.0 {
      forall targets: seq<real> | |targets| == |members| ensures Differentiation(WithTargets(members, targets)) <= 1.0 {
        WithTargetsFacts(members, targets);
        ProportionExactlyWhenKept(WithTargets(members, targets), b, Total(targets, Identity()));
      }
    } else if LeavesRoom(members, b) {
      forall targets: seq<real> | |targets| == |members| && NonNegative(targets)
        ensures Differentiation(WithTargets(members, targets)) <= 1.0
      {
        RoomIsEnough(members, b, targets);
      }
    } else if AlwaysProportion(members) {
      forall i | 0 <= i < |members| ensures Total(members, Low(b)) + Room(b)(members[i]) >= 0.0 {
        RoomIsNeeded(members, b, i);
      }
    }
  }

  /** When all members are measured: exactly when no baseline share is negative. */
  lemma MeasuredMembersNeedSharesOfOneSign(members: seq<Member>, b: real)
    requires b == Total(members, Baseline) && forall m | m in members :: Localizable(m)
    ensures AlwaysProportion(members) <==> b == 0.0 || forall m | m in members :: m.baselineAmount / b >= 0.0
  {
    AlwaysProportionExactly(members, b);
    hide AlwaysProportion, Total;
    if b != 0.0 { RoomWithSharesOfOneSign(members, b); }
  }

  lemma RoomOfMeasured(m: Member, b: real)
    requires b != 0.0 && Localizable(m)
    ensures m.baselineAmount / b >= 0.0 ==> Low(b)(m) == 0.0 && Room(b)(m) >= 0.0
    ensures m.baselineAmount / b < 0.0 ==> Low(b)(m) < 0.0 && Room(b)(m) == 0.0
  {
  }

  lemma RoomWithoutNegativeShares(members: seq<Member>, b: real)
    requires b != 0.0
    requires forall i | 0 <= i < |members| :: Localizable(members[i]) && members[i].baselineAmount / b >= 0.0
    ensures LeavesRoom(members, b)
  {
    hide Total, Low, Room, Localizable;
    forall i | 0 <= i < |members| ensures Low(b)(members[i]) == 0.0 && Room(b)(members[i]) >= 0.0 {
      RoomOfMeasured(members[i], b);
    }
    TotalConstant(members, Low(b), 0.0);
  }

  lemma LowIsNotPositive(members: seq<Member>, b: real)
    requires b != 0.0 && forall i | 0 <= i < |members| :: Localizable(members[i])
    ensures forall i | 0 <= i < |members| :: Low(b)(members[i]) <= 0.0
  {
    hide Low, Room, Localizable;
    forall i | 0 <= i < |members| ensures Low(b)(members[i]) <= 0.0 { RoomOfMeasured(members[i], b); }
  }

  lemma NoRoomForNegativeShare(members: seq<Member>, b: real, k: nat)
    requires b != 0.0 && k < |members| && forall i | 0 <= i < |members| :: Localizable(members[i])
    requires members[k].baselineAmount / b < 0.0
    ensures Total(members, Low(b)) + Room(b)(members[k]) < 0.0
  {
    LowIsNotPositive(members, b);
    RoomOfMeasured(members[k], b);
    hide Total, Low, Room, Localizable;
    var none := (m: Member) => 0.0;
    TotalConstant(members, none, 0.0);
    TotalStrictlyMonotone(members, Low(b), none, k);
  }

  lemma RoomWithSharesOfOneSign(members: seq<Member>, b: real)
    requires b != 0.0 && forall m | m in members :: Localizable(m)
    ensures LeavesRoom(members, b) <==> forall m | m in members :: m.baselineAmount / b >= 0.0
  {
    hide Total, Low, Room, Localizable;
    forall i | 0 <= i < |members| ensures members[i] in members { }
    if forall m | m in members :: m.baselineAmount / b >= 0.0 {
      RoomWithoutNegativeShares(members, b);
    } else {
      var m :| m in members && m.baselineAmount / b < 0.0;
      var k :| 0 <= k < |members| && members[k] == m;
      NoRoomForNegativeShare(members, b, k);
    }
  }

  // ---- How far beyond one ----

  /** How far below zero the share of a member is. */
  function NegativeShare(amount: Member -> real, whole: real): Member -> real
    requires whole != 0.0
  {
    m => Max(-(amount(m) / whole), 0.0)
  }

  function Negative(b: real, t: real): Member -> real
    requires b != 0.0 && t != 0.0
  {
    m => -1.0 * NegativeShare(Baseline, b)(m) + -1.0 * NegativeShare(Target, t)(m)
  }

  lemma KeptAtLeastNegative(m: Member, b: real, t: real)
    requires b != 0.0 && t != 0.0
    ensures Negative(b, t)(m) <= KeptOf(b, t)(m)
  {
    var u, v := Baseline(m) / b, Target(m) / t;
    assert NegativeShare(Baseline, b)(m) == Max(-u, 0.0) && NegativeShare(Target, t)(m) == Max(-v, 0.0);
    assert KeptOf(b, t)(m) == KeptShare(m, u, v);
  }

  lemma TotalOfNegative(members: seq<Member>, b: real, t: real)
    requires b != 0.0 && t != 0.0
    ensures Total(members, Negative(b, t))
            == -Total(members, NegativeShare(Baseline, b)) - Total(members, NegativeShare(Target, t))
  {
    hide Total, NegativeShare;
    TotalLinear(members, NegativeShare(Baseline, b), NegativeShare(Target, t), Negative(b, t), -1.0, -1.0);
  }

  /** Whatever the signs, the score exceeds one by no more than the negative shares of both periods. */
  lemma DifferentiationBeyondOne(members: seq<Member>, b: real, t: real)
    requires AnnotatedBy(members, b, t) && b != 0.0 && t != 0.0
    ensures 0.0 <= Differentiation(members)
    ensures Differentiation(members)
         <= 1.0 + Total(members, NegativeShare(Baseline, b)) + Total(members, NegativeShare(Target, t))
  {
    DifferentiationIsNotNegative(members);
    ScoreIsWhatIsNotKept(members, b, t);
    hide Total, AnnotatedBy, Differentiation, NegativeShare, KeptOf, Negative;
    forall i | 0 <= i < |members| ensures Negative(b, t)(members[i]) <= KeptOf(b, t)(members[i]) {
      KeptAtLeastNegative(members[i], b, t);
    }
    TotalMonotone(members, Negative(b, t), KeptOf(b, t));
    TotalOfNegative(members, b, t);
  }
}
