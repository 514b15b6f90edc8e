/** The handlers of misc_commandscript (cs_misc.cpp) that change a player's
    state in place: showarea and hidearea rewrite one word of the
    explored-zones field array, dev sets or clears the developer flag, and
    freeze threads its local variables through the argument cases before
    it applies the freeze aura. */
module PlayerState {
  import opened Types
  import opened CStdlib
  import opened Common

  // ----- explored zones -----

  /** The word of the explored-zones array that holds an area's bit: None
      when the area has no bit (a negative AreaBit) or the word lies beyond
      the array of `size` (PLAYER_EXPLORED_ZONES_SIZE) words. */
  function AreaOffset(areaBit: int, size: nat): (r: Option<nat>)
    ensures r.Some? <==> 0 <= areaBit && areaBit / 32 < size
    ensures r.Some? ==> r.value == areaBit / 32 < size
  {
    if areaBit < 0 || areaBit / 32 >= size then None else Some(areaBit / 32)
  }

  /** `uint32(1 << (AreaBit % 32))`: the area's bit within its word. */
  function AreaMask(areaBit: nat): bv32
  {
    1 << BitIndex(areaBit)
  }

  /** `AreaBit % 32`, the position of the area's bit within its word. */
  function BitIndex(areaBit: nat): bv5
  {
    (areaBit % 32) as bv5
  }

  /** A word with the area's bit or-ed in (showarea). */
  function ShowWord(x: bv32, areaBit: nat): bv32 {
    x | AreaMask(areaBit)
  }

  /** A word with the area's bit xor-ed in (hidearea). */
  function HideWord(x: bv32, areaBit: nat): bv32 {
    x ^ AreaMask(areaBit)
  }

  /** Whether the word has the area's bit. */
  predicate HasBit(x: bv32, areaBit: nat) {
    x & AreaMask(areaBit) != 0
  }

  /** Whether the area is marked explored in `words`. */
  predicate IsExplored(words: seq<bv32>, areaBit: int)
  {
    AreaOffset(areaBit, |words|).Some? && HasBit(words[areaBit / 32], areaBit)
  }

  /** The explored-zones words after showarea for the area with bit
      `area` (None: no area entry). */
  function ShowAreaSpec(words: seq<bv32>, area: Option<int32>): seq<bv32>
  {
    if area.None? then words
    else
      match AreaOffset(area.value, |words|)
      case None => words
      case Some(o) => words[o := ShowWord(words[o], area.value)]
  }

  /** The explored-zones words after hidearea. */
  function HideAreaSpec(words: seq<bv32>, area: Option<int32>): seq<bv32>
  {
    if area.None? then words
    else
      match AreaOffset(area.value, |words|)
      case None => words
      case Some(o) => words[o := HideWord(words[o], area.value)]
  }

  /** A mask has one bit: a word either has all of it or none of it. */
  lemma MaskIsOneBit(x: bv32, a: nat)
    ensures AreaMask(a) != 0
    ensures x & AreaMask(a) == 0 || x & AreaMask(a) == AreaMask(a)
  {
  }

  /** Masks of different bit positions do not share a bit. */
  lemma MasksDisjoint(a: nat, b: nat)
    requires a % 32 != b % 32
    ensures BitIndex(a) != BitIndex(b)
    ensures AreaMask(a) & AreaMask(b) == 0
  {
    ShiftsDisjoint(BitIndex(a), BitIndex(b));
  }

  lemma ShiftsDisjoint(s: bv5, t: bv5)
    requires s != t
    ensures (1 as bv32 << s) & (1 as bv32 << t) == 0
  {
  }

  lemma OrSets(x: bv32, m: bv32)
    ensures (x | m) & m == m
    ensures (x | m) | m == x | m
  {
  }

  lemma OrKeeps(x: bv32, m: bv32, n: bv32)
    ensures x & n != 0 ==> (x | m) & n != 0
  {
  }

  lemma XorFlips(x: bv32, m: bv32)
    ensures (x ^ m) & m == (x & m) ^ m
  {
  }

  lemma XorKeeps(x: bv32, m: bv32, n: bv32)
    requires m & n == 0
    ensures (x ^ m) & n == x & n
  {
  }

  lemma XorTwice(x: bv32, m: bv32)
    ensures (x ^ m) ^ m == x
  {
  }

  /** Or-ing the area's bit in sets it, keeps every bit that was set, and
      a second time changes nothing. */
  lemma ShowWordSets(x: bv32, a: nat, b: nat)
    ensures HasBit(ShowWord(x, a), a)
    ensures HasBit(x, b) ==> HasBit(ShowWord(x, a), b)
    ensures ShowWord(ShowWord(x, a), a) == ShowWord(x, a)
  {
    MaskIsOneBit(x, a);
    OrSets(x, AreaMask(a));
    OrKeeps(x, AreaMask(a), AreaMask(b));
  }

  /** Xor-ing the area's bit in flips it. */
  lemma HideWordToggles(x: bv32, a: nat)
    ensures HasBit(HideWord(x, a), a) <==> !HasBit(x, a)
    ensures HideWord(HideWord(x, a), a) == x
  {
    MaskIsOneBit(x, a);
    XorFlips(x, AreaMask(a));
    XorTwice(x, AreaMask(a));
  }

  /** Xor-ing a mask keeps whether a word meets a disjoint mask. */
  lemma XorKeepsBit(x: bv32, m: bv32, n: bv32)
    requires m & n == 0
    ensures (x ^ m) & n != 0 <==> x & n != 0
  {
    XorKeeps(x, m, n);
  }

  /** Xor-ing the area's bit in keeps the bits of other positions. */
  lemma HideWordKeeps(x: bv32, a: nat, b: nat)
    requires a % 32 != b % 32
    ensures HasBit(HideWord(x, a), b) <==> HasBit(x, b)
  {
    MasksDisjoint(a, b);
    XorKeepsBit(x, AreaMask(a), AreaMask(b));
  }

  /** showarea marks an accepted area explored and writes no other word. */
  lemma ShowAreaMarks(words: seq<bv32>, areaBit: int32)
    requires AreaOffset(areaBit, |words|).Some?
    ensures var r := ShowAreaSpec(words, Some(areaBit));
            && |r| == |words|
            && IsExplored(r, areaBit)
            && forall i :: 0 <= i < |words| && i != areaBit / 32 ==> r[i] == words[i]
  {
    ShowWordSets(words[areaBit / 32], areaBit, areaBit);
  }

  /** showarea never makes an explored area unexplored. */
  lemma ShowAreaKeeps(words: seq<bv32>, areaBit: int32, other: int)
    requires IsExplored(words, other)
    ensures IsExplored(ShowAreaSpec(words, Some(areaBit)), other)
  {
    if AreaOffset(areaBit, |words|).Some? && other / 32 == areaBit / 32 {
      ShowWordSets(words[areaBit / 32], areaBit, other);
    }
  }

  /** A second showarea of the same area changes nothing. */
  lemma ShowAreaIdempotent(words: seq<bv32>, area: Option<int32>)
    ensures ShowAreaSpec(ShowAreaSpec(words, area), area) == ShowAreaSpec(words, area)
  {
    if area.Some? && AreaOffset(area.value, |words|).Some? {
      var o := area.value / 32;
      var r := words[o := ShowWord(words[o], area.value)];
      ShowWordSets(words[o], area.value, area.value);
      assert r[o := ShowWord(r[o], area.value)] == r;
    }
  }

  /** hidearea toggles an accepted area: an explored area becomes
      unexplored and an unexplored one explored; no other word is
      written. */
  lemma HideAreaToggles(words: seq<bv32>, areaBit: int32)
    requires AreaOffset(areaBit, |words|).Some?
    ensures var r := HideAreaSpec(words, Some(areaBit));
            && |r| == |words|
            && (IsExplored(r, areaBit) <==> !IsExplored(words, areaBit))
            && forall i :: 0 <= i < |words| && i != areaBit / 32 ==> r[i] == words[i]
  {
    HideWordToggles(words[areaBit / 32], areaBit);
  }

  /** hidearea keeps every area whose bit is at another position. */
  lemma HideAreaKeeps(words: seq<bv32>, areaBit: int32, other: int)
    requires other % 32 != areaBit % 32
    ensures IsExplored(HideAreaSpec(words, Some(areaBit)), other) <==> IsExplored(words, other)
  {
    if AreaOffset(areaBit, |words|).Some? && other >= 0 && other / 32 == areaBit / 32 {
      HideWordKeeps(words[areaBit / 32], areaBit, other);
    }
  }

  /** Hiding the same area twice restores the words. */
  lemma HideAreaTwice(words: seq<bv32>, area: Option<int32>)
    ensures HideAreaSpec(HideAreaSpec(words, area), area) == words
  {
    if area.Some? && AreaOffset(area.value, |words|).Some? {
      var o := area.value / 32;
      var r := words[o := HideWord(words[o], area.value)];
      HideWordToggles(words[o], area.value);
      assert r[o := HideWord(r[o], area.value)] == words;
    }
  }

  /** A rejected area changes nothing, for either command. */
  lemma RejectedAreaUnchanged(words: seq<bv32>, area: Option<int32>)
    requires area.None? || AreaOffset(area.value, |words|).None?
    ensures ShowAreaSpec(words, area) == words && HideAreaSpec(words, area) == words
    ensures area.Some? ==> area.value < 0 || area.value >= 32 * |words|
  {
  }

  // ----- the developer flag -----

  /** The notification dev sends: LANG_DEV_ON or LANG_DEV_OFF. */
  datatype DevNotice = DevOn | DevOff

  /** What dev leaves behind: the new PLAYER_FLAGS, the notification
      (None: the LANG_USE_BOL error instead) and the handler's result.
      PLAYER_FLAGS is the set of the positions of its set bits. */
  datatype DevResult = DevResult(flags: set<nat>, notice: Option<DevNotice>, ok: bool)

  /** The reference semantics of dev; `flag` is the bit position of
      PLAYER_FLAGS_DEVELOPER. */
  function DevSpec(flags: set<nat>, args: string, flag: nat): DevResult
  {
    if args == [] then DevResult(flags, Some(if flag in flags then DevOn else DevOff), true)
    else if args == "on" then DevResult(flags + {flag}, Some(DevOn), true)
    else if args == "off" then DevResult(flags - {flag}, Some(DevOff), true)
    else DevResult(flags, None, false)
  }

  /** Only "on" and "off" change the flags; no argument reports the flag;
      any other argument is an error that sends no notification. */
  lemma DevCases(flags: set<nat>, args: string, flag: nat)
    ensures var r := DevSpec(flags, args, flag);
            && (r.ok <==> args == [] || args == "on" || args == "off")
            && (r.ok <==> r.notice.Some?)
            && (args != "on" && args != "off" ==> r.flags == flags)
            && (args == [] ==> (r.notice == Some(DevOn) <==> flag in flags))
  {
  }

  /** "on" sets the developer bit and no other, a second "on" changes
      nothing, and a later query reports it on. */
  lemma DevOnSetsFlag(flags: set<nat>, flag: nat)
    ensures var r := DevSpec(flags, "on", flag);
            && flag in r.flags && r.flags - {flag} == flags - {flag}
            && DevSpec(r.flags, "on", flag).flags == r.flags
            && DevSpec(r.flags, [], flag).notice == Some(DevOn)
  {
  }

  /** "off" clears the developer bit and no other, undoes an "on", and a
      later query reports it off. */
  lemma DevOffClearsFlag(flags: set<nat>, flag: nat)
    ensures var r := DevSpec(flags, "off", flag);
            && flag !in r.flags && r.flags - {flag} == flags - {flag}
            && DevSpec(DevSpec(flags, "on", flag).flags, "off", flag).flags == r.flags
            && DevSpec(r.flags, [], flag).notice == Some(DevOff)
  {
  }

  /** A player's in-place state: the PLAYER_EXPLORED_ZONES fields (the
      array's length is PLAYER_EXPLORED_ZONES_SIZE) and PLAYER_FLAGS, as
      the set of positions of its set bits. */
  class Player {
    var explored: array<bv32>
    var flags: set<nat>

    constructor (size: nat)
      ensures explored.Length == size && fresh(explored)
      ensures forall i :: 0 <= i < size ==> explored[i] == 0
      ensures flags == {}
    {
      explored := new bv32[size](_ => 0);
      flags := {};
    }

    /** showarea on this player: `area` is the AreaBit of the area entry
        looked up from the argument, None when there is none. */
    method ShowArea(area: Option<int32>) returns (ok: bool)
      modifies explored
      ensures ok <==> area.Some? && AreaOffset(area.value, explored.Length).Some?
      ensures explored[..] == ShowAreaSpec(old(explored[..]), area)
    {
      if area.None? {
        return false;
      }
      var areaBit := area.value;
      if areaBit < 0 {
        return false;
      }
      var offset := areaBit / 32;
      if offset >= explored.Length {
        return false;
      }
      var val: bv32 := 1 << BitIndex(areaBit);
      var currFields := explored[offset];
      explored[offset] := currFields | val;
      assert explored[..] == old(explored[..])[offset := ShowWord(currFields, areaBit)];
      return true;
    }

    /** hidearea on this player. */
    method HideArea(area: Option<int32>) returns (ok: bool)
      modifies explored
      ensures ok <==> area.Some? && AreaOffset(area.value, explored.Length).Some?
      ensures explored[..] == HideAreaSpec(old(explored[..]), area)
    {
      if area.None? {
        return false;
      }
      var areaBit := area.value;
      if areaBit < 0 {
        return false;
      }
      var offset := areaBit / 32;
      if offset >= explored.Length {
        return false;
      }
      var val: bv32 := 1 << BitIndex(areaBit);
      var currFields := explored[offset];
      explored[offset] := currFields ^ val;
      assert explored[..] == old(explored[..])[offset := HideWord(currFields, areaBit)];
      return true;
    }

    /** dev on this player (the caller's own character). */
    method Dev(args: string, flag: nat) returns (notice: Option<DevNotice>, ok: bool)
      modifies this
      ensures DevResult(flags, notice, ok) == DevSpec(old(flags), args, flag)
      ensures explored == old(explored)
    {
      if args == [] {
        if flag in flags {
          notice := Some(DevOn);
        } else {
          notice := Some(DevOff);
        }
        return notice, true;
      }
      if args == "on" {
        flags := flags + {flag};
        return Some(DevOn), true;
      }
      if args == "off" {
        flags := flags - {flag};
        return Some(DevOff), true;
      }
      return None, false;
    }
  }

  // ----- freeze -----

  /** A player, by the low part of its guid. */
  type PlayerId = nat

  /** The id of the freeze aura (spell 9454). */
  const FREEZE_SPELL_ID: nat := 9454

  datatype FreezeOutcome =
    | FreezeNoPlayer                                  // LANG_COMMAND_FREEZE_WRONG
    | FreezeSelf                                      // LANG_COMMAND_FREEZE_ERROR
    | Frozen(target: PlayerId, auraDuration: Option<int32>)
    | FreezeFailed
  {
    /** The handler's return value. */
    predicate Succeeded() {
      !FreezeFailed?
    }
  }

  /** The four scenarios the freeze handler is written for, read off the
      argument words: the player to freeze and the duration in seconds, or
      None when the arguments are all spaces and nothing is applied.
      `findPlayer` is FindPlayerByName on the normalized name. */
  function FreezeTarget(args: string, selected: Option<PlayerId>, isNumeric: string -> bool,
                        findPlayer: string -> Option<PlayerId>, configDuration: uint32)
    : Option<(Option<PlayerId>, uint32)>
  {
    if args == [] then Some((selected, configDuration))                    // .freeze
    else
      match Token(args, 0)
      case None => None
      case Some(arg1) =>
        if isNumeric(arg1) then Some((selected, ToUint32(Atoi(arg1))))   // .freeze duration
        else
          match Token(args, 1)
          case Some(arg2) =>
            if isNumeric(arg2) then Some((findPlayer(arg1), ToUint32(Atoi(arg2))))   // .freeze player duration
            else Some((findPlayer(arg1), configDuration))
          case None => Some((findPlayer(arg1), configDuration))            // .freeze player
  }

  /** What the handler does with the player and duration: no player and the
      caller themself are refused with a message; otherwise the aura is
      added and, for a nonzero duration, set to `duration * IN_MILLISECONDS`
      (a uint32 product handed to an int32 parameter). */
  function FreezeSpec(args: string, selected: Option<PlayerId>, self: PlayerId, isNumeric: string -> bool,
                      findPlayer: string -> Option<PlayerId>, configDuration: uint32,
                      addAura: PlayerId -> bool): FreezeOutcome
  {
    match FreezeTarget(args, selected, isNumeric, findPlayer, configDuration)
    case None => FreezeFailed
    case Some((player, duration)) =>
      if player.None? then FreezeNoPlayer
      else if player.value == self then FreezeSelf
      else if !addAura(player.value) then FreezeFailed
      else Frozen(player.value, if duration != 0 then Some(ToInt32(ToUint32(duration * IN_MILLISECONDS))) else None)
  }

  /** The freeze handler: the selected player, the duration and the two
      flags are threaded through the argument cases as local variables. */
  method Freeze(args: string, selected: Option<PlayerId>, self: PlayerId, isNumeric: string -> bool,
                findPlayer: string -> Option<PlayerId>, configDuration: uint32, addAura: PlayerId -> bool)
    returns (outcome: FreezeOutcome)
    ensures outcome == FreezeSpec(args, selected, self, isNumeric, findPlayer, configDuration, addAura)
  {
    var player := selected;
    var freezeDuration: uint32 := 0;
    var canApplyFreeze := false;
    var getDurationFromConfig := false;

    if args == [] {
      getDurationFromConfig := true;
    } else {
      var arg1 := Token(args, 0);
      var arg2 := Token(args, 1);
      if arg1.Some? {
        if isNumeric(arg1.value) {
          freezeDuration := ToUint32(Atoi(arg1.value));
          canApplyFreeze := true;
        } else {
          player := findPlayer(arg1.value);
          if arg2.Some? && isNumeric(arg2.value) {
            freezeDuration := ToUint32(Atoi(arg2.value));
            canApplyFreeze := true;
          } else {
            getDurationFromConfig := true;
          }
        }
      }
    }

    if getDurationFromConfig {
      freezeDuration := configDuration;
      canApplyFreeze := true;
    }

    if canApplyFreeze {
      if player.None? {
        return FreezeNoPlayer;
      } else if player.value == self {
        return FreezeSelf;
      } else {
        var freeze := addAura(player.value);
        if freeze {
          var auraDuration: Option<int32> := None;
          if freezeDuration != 0 {
            auraDuration := Some(ToInt32(ToUint32(freezeDuration * IN_MILLISECONDS)));
          }
          return Frozen(player.value, auraDuration);
        }
      }
    }
    return FreezeFailed;
  }

  /** Nobody freezes themself, only a player the aura was added to is
      frozen, and the command fails only when there were no words in the
      arguments or the aura could not be added. */
  lemma FreezeNeverSelf(args: string, selected: Option<PlayerId>, self: PlayerId, isNumeric: string -> bool,
                        findPlayer: string -> Option<PlayerId>, configDuration: uint32,
                        addAura: PlayerId -> bool)
    ensures var r := FreezeSpec(args, selected, self, isNumeric, findPlayer, configDuration, addAura);
            && (r.Frozen? ==> r.target != self && addAura(r.target))
            && (!r.Succeeded() <==>
                  || FreezeTarget(args, selected, isNumeric, findPlayer, configDuration).None?
                  || var (p, _) := FreezeTarget(args, selected, isNumeric, findPlayer, configDuration).value;
                     p.Some? && p.value != self && !addAura(p.value))
            && (FreezeTarget(args, selected, isNumeric, findPlayer, configDuration).None? <==>
                  args != [] && Tokens(args) == [])
  {
  }

  /** A numeric first word freezes the selected player for that many
      seconds, whatever follows; a name freezes the named player, for the
      configured duration unless a numeric second word gives one. */
  lemma FreezeArgumentCases(args: string, selected: Option<PlayerId>, isNumeric: string -> bool,
                            findPlayer: string -> Option<PlayerId>, configDuration: uint32)
    requires Token(args, 0).Some?
    ensures var arg1 := Token(args, 0).value;
            var t := FreezeTarget(args, selected, isNumeric, findPlayer, configDuration);
            && (isNumeric(arg1) ==> t == Some((selected, ToUint32(Atoi(arg1)))))
            && (!isNumeric(arg1) ==> t.Some? && t.value.0 == findPlayer(arg1))
            && (!isNumeric(arg1) && (Token(args, 1).None? || !isNumeric(Token(args, 1).value)) ==>
                  t.value.1 == configDuration)
  {
  }

  /** A zero duration keeps the aura's own duration; a duration that fits
      sets the aura to that many milliseconds. */
  lemma FreezeDurationMilliseconds(duration: uint32)
    requires 0 < duration && duration * IN_MILLISECONDS < TWO_31
    ensures ToInt32(ToUint32(duration * IN_MILLISECONDS)) == duration * 1000
  {
    ToUint32OfInRange(duration * IN_MILLISECONDS);
  }
}
