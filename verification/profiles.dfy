/** The profile generator of the guestbook (`generateAvatar` and
    `generateUserProfile` in assets/js/feedback.js). `Math.random()` and
    `Date.now()` are inputs: `rosterDraw` is `Math.floor(Math.random() * 17)`,
    each element of `draws` is one `Math.floor(Math.random() * 90)`, and `now`
    is the clock reading. */
module Profiles {
  import opened Wrappers
  import opened Text
  import opened Entities
  import opened LocalStorage

  /** The twenty avatar colours, indexed by `ColorIndex`. */
  const Palette: seq<string> := [
    "#E53E3E", "#319795", "#3182CE", "#DD6B20", "#38A169",
    "#D69E2E", "#9F7AEA", "#3182CE", "#ED8936", "#48BB78",
    "#E53E3E", "#3182CE", "#D69E2E", "#4299E1", "#38A169",
    "#E53E3E", "#9F7AEA", "#319795", "#D69E2E", "#4299E1"
  ]

  /** The neutral grey of the avatar for a missing name. */
  const SentinelColor := "#6B7280"
  const Sentinel := AvatarData("?", SentinelColor)

  /** The seventeen nickname bases. */
  const Roster: seq<string> := [
    "吉伊卡蛙", "哆啦J夢", "孫陸空", "炭治狼", "肝鐵人", "籠貓", "鎖龍",
    "奇芽", "謎豆子", "阿妮亞", "滷夫", "撕紙王", "辣布布", "史努嗶",
    "卡皮爸拉", "史笛奇", "鼻卡丘"
  ]

  /** The palette slot of a non-empty name: first character code plus length,
      modulo the palette size. */
  function ColorIndex(name: string): (i: nat)
    requires name != []
    ensures i < |Palette|
  {
    (name[0] as int + |name|) % |Palette|
  }

  /** `generateAvatar(name)`; `None` stands for `undefined` or `null`. */
  function GenerateAvatar(name: Option<string>): (a: AvatarData)
    ensures a == Sentinel <==> name.None? || name.value == []
    ensures a.color == SentinelColor <==> name.None? || name.value == []
    ensures name.Some? && name.value != [] ==>
      && a.letter == [ToUpper(name.value[0])]
      && a.color in Palette
      && a.color == Palette[ColorIndex(name.value)]
  {
    match name
    case None => Sentinel
    case Some(s) =>
      if s == [] then Sentinel
      else AvatarData([ToUpper(s[0])], Palette[ColorIndex(s)])
  }

  /** Names that agree on their first character and their length get the
      same avatar, whatever the rest of the name is. */
  lemma AvatarDependsOnFirstCharAndLength(a: string, b: string)
    requires a != [] && b != []
    requires a[0] == b[0] && |a| == |b|
    ensures GenerateAvatar(Some(a)) == GenerateAvatar(Some(b))
  {
    assert ColorIndex(a) == ColorIndex(b);
  }

  /** A nickname suffix: a number from 10 to 99 with no digit 4
      (`ValidSuffixText` relates this to the test on the decimal text). */
  predicate IsValidSuffix(n: int) {
    10 <= n <= 99 && n / 10 != 4 && n % 10 != 4
  }

  /** The loop's test `toString().includes('4')` on a two-digit draw accepts
      exactly the valid suffixes. */
  lemma ValidSuffixText(n: int)
    ensures IsValidSuffix(n) <==> 10 <= n <= 99 && '4' !in NatToDecimal(n)
  {
    if 10 <= n <= 99 {
      TwoDigitNumeral(n);
      var t := NatToDecimal(n);
      assert t[0] == '4' <==> n / 10 == 4;
      assert t[1] == '4' <==> n % 10 == 4;
      assert '4' in t <==> t[0] == '4' || t[1] == '4';
    }
  }

  /** `Math.floor(Math.random() * 90)` is always below 90. */
  predicate DrawsInRange(draws: seq<nat>) {
    forall i :: 0 <= i < |draws| ==> draws[i] < 90
  }

  /** The resampling loop stops within the given draws. */
  predicate SomeDrawValid(draws: seq<nat>) {
    exists i :: 0 <= i < |draws| && IsValidSuffix(draws[i] + 10)
  }

  /** No draw before position `k` gives a valid suffix. */
  predicate NoValidBefore(draws: seq<nat>, k: nat)
    requires k <= |draws|
  {
    forall j :: 0 <= j < k ==> !IsValidSuffix(draws[j] + 10)
  }

  /** When the first draw is rejected, a later one is accepted. */
  lemma ValidInTail(draws: seq<nat>)
    requires SomeDrawValid(draws) && !IsValidSuffix(draws[0] + 10)
    ensures SomeDrawValid(draws[1..])
  {
    var i :| 0 <= i < |draws| && IsValidSuffix(draws[i] + 10);
    assert i != 0;
    assert draws[1..][i - 1] == draws[i];
  }

  /** A rejected first draw followed by `k` rejected draws is `k + 1`
      rejected draws. */
  lemma RejectedPrefix(draws: seq<nat>, k: nat)
    requires k < |draws| && !IsValidSuffix(draws[0] + 10)
    requires NoValidBefore(draws[1..], k)
    ensures NoValidBefore(draws, k + 1)
  {
    forall j | 0 <= j < k + 1 ensures !IsValidSuffix(draws[j] + 10) {
      if j > 0 { assert draws[j] == draws[1..][j - 1]; }
    }
  }

  /** The position of the draw at which the do-while loop stops: the first
      one that gives a valid suffix. */
  function StoppingDraw(draws: seq<nat>): (k: nat)
    requires SomeDrawValid(draws)
    ensures k < |draws| && IsValidSuffix(draws[k] + 10)
    ensures NoValidBefore(draws, k)
  {
    if IsValidSuffix(draws[0] + 10) then 0
    else
      ValidInTail(draws);
      var k := StoppingDraw(draws[1..]);
      RejectedPrefix(draws, k);
      k + 1
  }

  /** The suffix the do-while loop settles on. */
  function PickSuffix(draws: seq<nat>): (n: nat)
    requires DrawsInRange(draws) && SomeDrawValid(draws)
    ensures IsValidSuffix(n)
    ensures n == draws[StoppingDraw(draws)] + 10
  {
    draws[StoppingDraw(draws)] + 10
  }

  /** A nickname of the generated form: a roster name followed by the two
      digits of a valid suffix. */
  predicate IsRosterNickname(s: string) {
    && |s| >= 2
    && s[..|s| - 2] in Roster
    && AllDigits(s[|s| - 2..])
    && IsValidSuffix(DecimalValue(s[|s| - 2..]))
  }

  /** The random choices are ones `Math.random()` can produce, and the
      resampling loop ends within `draws`. */
  predicate WellFormedDraws(rosterDraw: nat, draws: seq<nat>) {
    rosterDraw < |Roster| && DrawsInRange(draws) && SomeDrawValid(draws)
  }

  /** `base + n.toString().padStart(2, '0')`: for a valid suffix the padding
      adds nothing, so the nickname ends in exactly two digits, none a '4'. */
  function Nickname(base: string, n: nat): (s: string)
    requires IsValidSuffix(n)
    ensures |s| == |base| + 2 && s[..|base|] == base
    ensures s[|base|..] == NatToDecimal(n)
    ensures AllDigits(s[|base|..]) && DecimalValue(s[|base|..]) == n
    ensures '4' !in s[|base|..]
  {
    ValidSuffixText(n);
    TwoDigitNumeral(n);
    var suffix := PadStart(NatToDecimal(n), 2, '0');
    assert suffix == NatToDecimal(n);
    base + suffix
  }

  /** A roster name followed by a valid suffix is a generated nickname. */
  lemma RosterNickname(i: nat, n: nat)
    requires i < |Roster| && IsValidSuffix(n)
    ensures var nick := Nickname(Roster[i], n);
      && IsRosterNickname(nick)
      && nick[..|nick| - 2] == Roster[i]
      && '4' !in nick[|nick| - 2..]
  {
    var nick := Nickname(Roster[i], n);
    assert nick[..|nick| - 2] == Roster[i];
  }

  /** The nickname `generateUserProfile` draws: roster entry `rosterDraw`
      followed by the suffix the resampling loop settles on. */
  function DrawNickname(rosterDraw: nat, draws: seq<nat>): (nick: string)
    requires WellFormedDraws(rosterDraw, draws)
    ensures IsRosterNickname(nick)
    ensures nick[..|nick| - 2] == Roster[rosterDraw]
    ensures '4' !in nick[|nick| - 2..]
  {
    RosterNickname(rosterDraw, PickSuffix(draws));
    Nickname(Roster[rosterDraw], PickSuffix(draws))
  }

  datatype ProfileResult = ProfileResult(profile: Profile, store: Store)

  /** The creation branch with the nickname already drawn: derive its avatar
      and write the profile under `ProfileKey`. */
  function CreateProfile(store: Store, nick: string, now: int): (r: ProfileResult)
    ensures ReadProfile(r.store) == Present(r.profile)
    ensures AgreeExcept(store, r.store, {ProfileKey})
    ensures r.profile.nickname == nick
    ensures r.profile.avatar == GenerateAvatar(Some(nick))
    ensures r.profile.createdAt == now
  {
    var p := Profile(nick, GenerateAvatar(Some(nick)), now);
    ProfileResult(p, store[ProfileKey := ProfileValue(p)])
  }

  /** `generateUserProfile()` with the nickname its random draws would give
      passed in: the stored profile when one parses, otherwise a new one with
      that nickname, written under `ProfileKey`. */
  function ObtainProfile(store: Store, nick: string, now: int): (r: ProfileResult)
    ensures ReadProfile(r.store) == Present(r.profile)
    ensures AgreeExcept(store, r.store, {ProfileKey})
    ensures ReadProfile(store).Present? ==> r.profile == ReadProfile(store).value && r.store == store
    ensures !ReadProfile(store).Present? ==> r == CreateProfile(store, nick, now)
  {
    match ReadProfile(store)
    case Present(p) => ProfileResult(p, store)
    case _ => CreateProfile(store, nick, now)
  }

  /** `generateUserProfile()`: the stored profile when one parses, otherwise a
      new one whose nickname is drawn from the roster and the suffix loop. */
  function GenerateUserProfile(store: Store, rosterDraw: nat, draws: seq<nat>, now: int): (r: ProfileResult)
    requires WellFormedDraws(rosterDraw, draws)
    ensures ReadProfile(r.store) == Present(r.profile)
    ensures AgreeExcept(store, r.store, {ProfileKey})
    ensures ReadProfile(store).Present? ==> r.profile == ReadProfile(store).value && r.store == store
    ensures !ReadProfile(store).Present? ==>
      && IsRosterNickname(r.profile.nickname)
      && r.profile.nickname[..|r.profile.nickname| - 2] == Roster[rosterDraw]
      && r.profile.avatar == GenerateAvatar(Some(r.profile.nickname))
      && r.profile.createdAt == now
  {
    ObtainProfile(store, DrawNickname(rosterDraw, draws), now)
  }

  /** Once a profile exists, asking again, with any random draws and any
      clock, returns the same profile and writes nothing. */
  lemma ProfileIsStable(store: Store, d1: nat, s1: seq<nat>, t1: int, d2: nat, s2: seq<nat>, t2: int)
    requires WellFormedDraws(d1, s1) && WellFormedDraws(d2, s2)
    ensures var first := GenerateUserProfile(store, d1, s1, t1);
            GenerateUserProfile(first.store, d2, s2, t2) == first
  {
  }
}
