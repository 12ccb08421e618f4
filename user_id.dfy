/**
 * Member identifiers, as `generateUserId` builds them:
 * `"user_" + Date.now() + "_" + Math.random().toString(36).substr(2, 9)`.
 * The clock reading and the base-36 rendering of the random number are
 * parameters; `IdTime` reads the clock reading back out of an identifier.
 */
module UserIds {
  import opened Wrappers
  import opened Text

  const IdPrefix: string := "user_"

  /** The random part: the characters after `"0."` of the base-36 rendering, at most nine. */
  function RandomSuffix(random36: string): (r: string)
    ensures |r| <= 9
    ensures |random36| >= 2 ==> |r| == (if |random36| - 2 < 9 then |random36| - 2 else 9)
    ensures forall i :: 0 <= i < |r| ==> 2 + i < |random36| && r[i] == random36[2 + i]
  {
    Substr(random36, 2, 9)
  }

  /** The identifier given to a member whose submission completes at clock reading `now` (milliseconds). */
  function UserId(now: nat, random36: string): (id: string)
    ensures StartsWith(id, IdPrefix)
  {
    IdPrefix + Decimal(now) + "_" + RandomSuffix(random36)
  }

  /** The clock reading an identifier of the form `user_<digits>_...` carries, if it has that form. */
  function IdTime(id: string): Option<nat>
  {
    if !StartsWith(id, IdPrefix) then None
    else
      var rest := id[|IdPrefix|..];
      var digits := DigitPrefix(rest);
      if digits != [] && |digits| < |rest| && rest[|digits|] == '_'
      then Some(DigitsValue(digits))
      else None
  }

  /** An identifier records the clock reading it was made from, whatever the random part. */
  lemma UserIdRoundTrip(now: nat, random36: string)
    ensures IdTime(UserId(now, random36)) == Some(now)
  {
    var id := UserId(now, random36);
    var d := Decimal(now);
    var tail := "_" + RandomSuffix(random36);
    assert id == IdPrefix + (d + tail);
    assert id[|IdPrefix|..] == d + tail;
    DigitPrefixOfDigitsThenOther(d, tail);
    assert (d + tail)[|d|] == '_';
    DecimalRoundTrip(now);
  }

  /** Two identifiers made at different clock readings differ, whatever their random parts. */
  lemma DistinctTimesGiveDistinctIds(t1: nat, r1: string, t2: nat, r2: string)
    requires t1 != t2
    ensures UserId(t1, r1) != UserId(t2, r2)
  {
    UserIdRoundTrip(t1, r1);
    UserIdRoundTrip(t2, r2);
  }
}
