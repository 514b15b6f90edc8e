/** The rules inside the handlers of misc_commandscript (cs_misc.cpp) that
    decide what a command does from its argument text: how the arguments
    are split and converted, which values are rejected, and the arithmetic
    applied to the accepted ones. The game world, the database and the
    ChatHandler helpers they call are not part of this model; what the
    rules need from them (whether a player was found, a configuration
    value, the result of a security check) is passed in as parameters. The
    argument text is split as the handlers' `strtok(…, " ")` calls split
    it (CStdlib.Tokens); damage, which calls `strtok` on its buffer twice,
    runs CStdlib.StrTok itself. */
module MiscRules {
  import opened Types
  import opened CStdlib
  import opened Common

  // ----- linkgrave / neargrave: the team argument -----

  /** The team a graveyard link or search is restricted to: 0 (any team),
      HORDE or ALLIANCE. The numeric team ids come from the shared game
      constants, which are not part of this model. */
  datatype Team = AnyTeam | Horde | Alliance

  /** linkgrave's team word, the second token: no word means any team;
      otherwise `strncmp(word, "horde", 6)` and `strncmp(word, "alliance",
      9)`, which compare the terminating NUL as well. None: the command
      fails. */
  function LinkGraveTeam(word: Option<string>): Option<Team>
  {
    match word
    case None => Some(AnyTeam)
    case Some(w) =>
      if StrNEqual(w, "horde", 6) then Some(Horde)
      else if StrNEqual(w, "alliance", 9) then Some(Alliance)
      else None
  }

  /** The arguments of linkgrave: the graveyard id (`atoul` of the first
      word, stored in a uint32) and the team; None when the command fails
      before it looks the graveyard up. */
  function LinkGraveArgs(args: string): Option<(uint32, Team)>
  {
    if args == [] then None
    else
      match Token(args, 0)
      case None => None
      case Some(px) =>
        match LinkGraveTeam(Token(args, 1))
        case None => None
        case Some(team) => Some((ToUint32(Atoul(px)), team))
  }

  /** neargrave's team argument: the whole argument text, compared with
      `strncmp(args, "horde", strlen(args))` and then with "alliance". */
  function NearGraveTeam(args: string): Option<Team>
  {
    if args == [] then Some(AnyTeam)
    else if StrNEqual(args, "horde", |args|) then Some(Horde)
    else if StrNEqual(args, "alliance", |args|) then Some(Alliance)
    else None
  }

  /** linkgrave accepts exactly the words "horde" and "alliance". */
  lemma LinkGraveTeamIsExact(w: string)
    requires NUL !in w
    ensures LinkGraveTeam(Some(w)) == Some(Horde) <==> w == "horde"
    ensures LinkGraveTeam(Some(w)) == Some(Alliance) <==> w == "alliance"
    ensures LinkGraveTeam(Some(w)).None? <==> w != "horde" && w != "alliance"
  {
    StrNEqualIsEqual(w, "horde");
    StrNEqualIsEqual(w, "alliance");
  }

  /** neargrave accepts every non-empty prefix of "horde" or "alliance",
      reads no text as any team, and rejects everything else. */
  lemma NearGraveTeamIsPrefix(args: string)
    requires NUL !in args
    ensures NearGraveTeam(args) == Some(AnyTeam) <==> args == []
    ensures NearGraveTeam(args) == Some(Horde) <==> args != [] && args <= "horde"
    ensures NearGraveTeam(args) == Some(Alliance) <==> args != [] && args <= "alliance"
    ensures NearGraveTeam(args).None? <==> !(args <= "horde") && !(args <= "alliance")
  {
    StrNEqualIsPrefix(args, "horde");
    StrNEqualIsPrefix(args, "alliance");
    if args != [] && args <= "alliance" {
      assert args[0] == 'a';
    }
  }

  /** The two commands read the same team words differently: an
      abbreviation is a team for neargrave but an error for linkgrave, and
      a word with more letters is an error for both. */
  lemma TeamWordsCompared()
    ensures NearGraveTeam("hor") == Some(Horde) && LinkGraveTeam(Some("hor")).None?
    ensures NearGraveTeam("all") == Some(Alliance) && LinkGraveTeam(Some("all")).None?
    ensures NearGraveTeam("horde") == LinkGraveTeam(Some("horde")) == Some(Horde)
    ensures NearGraveTeam("hordes").None? && LinkGraveTeam(Some("hordes")).None?
  {
    NearGraveTeamIsPrefix("hor");
    LinkGraveTeamIsExact("hor");
    NearGraveTeamIsPrefix("all");
    LinkGraveTeamIsExact("all");
    NearGraveTeamIsPrefix("horde");
    LinkGraveTeamIsExact("horde");
    NearGraveTeamIsPrefix("hordes");
    LinkGraveTeamIsExact("hordes");
  }

  /** `linkgrave <id> <word>` with the id written in decimal: the id is
      read back, and the team is the one the word names. */
  lemma LinkGraveArgsOfWords(n: nat, w: string)
    requires n < TWO_32
    requires w != [] && ' ' !in w
    ensures LinkGraveArgs(JoinWords([ToDecimal(n), w])) ==
            (match LinkGraveTeam(Some(w))
             case None => None
             case Some(team) => Some((n, team)))
  {
    var d := ToDecimal(n);
    var args := JoinWords([d, w]);
    NoSpaceInDecimal(n);
    TokensOfJoinedWords([d, w]);
    assert Token(args, 0) == Some(d) && Token(args, 1) == Some(w);
    AtoulDecimal(n, []);
    ToUint32OfInRange(Atoul(d));
  }

  // ----- save: the throttle -----

  /** Whose character `.save` writes to the database. */
  datatype SaveAction = SaveSelected | SaveSelf | SkipSave

  /** A caller with RBAC_PERM_COMMANDS_SAVE_WITHOUT_DELAY saves the
      selected player, or themself when nothing is selected. Anyone else is
      saved when autosaving is off (an interval of 0) or when the interval
      exceeds 20 seconds and the save timer shows that at least 20 seconds
      have passed; the times are uint32 milliseconds. */
  function SaveCommand(saveWithoutDelay: bool, hasSelected: bool, saveInterval: uint32, saveTimer: uint32): SaveAction
  {
    if saveWithoutDelay then (if hasSelected then SaveSelected else SaveSelf)
    else if saveInterval == 0 ||
            (saveInterval > 20 * IN_MILLISECONDS && saveTimer <= ToUint32(saveInterval - 20 * IN_MILLISECONDS))
    then SaveSelf
    else SkipSave
  }

  /** The save timer counts down from the interval to the next autosave, so
      `saveInterval - saveTimer` is the time since the last save. A player
      without the permission is saved exactly when autosaving is off or at
      least 20 seconds have passed under an interval above 20 seconds; the
      subtraction never wraps. */
  lemma SaveThrottle(hasSelected: bool, saveInterval: uint32, saveTimer: uint32)
    ensures SaveCommand(false, hasSelected, saveInterval, saveTimer) != SaveSelected
    ensures SaveCommand(false, hasSelected, saveInterval, saveTimer) == SaveSelf <==>
            saveInterval == 0 ||
            (saveInterval > 20 * IN_MILLISECONDS && saveInterval - saveTimer >= 20 * IN_MILLISECONDS)
    ensures 0 < saveInterval <= 20 * IN_MILLISECONDS ==>
            SaveCommand(false, hasSelected, saveInterval, saveTimer) == SkipSave
  {
  }

  /** Without the `saveInterval > 20 * IN_MILLISECONDS` guard the uint32
      subtraction would wrap for a short interval, and every save would be
      let through. */
  lemma SaveGuardPreventsWrap(saveInterval: uint32, saveTimer: uint32)
    requires 0 < saveInterval < 20 * IN_MILLISECONDS
    requires saveTimer <= saveInterval
    ensures ToUint32(saveInterval - 20 * IN_MILLISECONDS) == TWO_32 + saveInterval - 20 * IN_MILLISECONDS
    ensures saveTimer <= ToUint32(saveInterval - 20 * IN_MILLISECONDS)
    ensures SaveCommand(false, false, saveInterval, saveTimer) == SkipSave
  {
  }

  /** With the permission the caller saves at once, whatever the timer. */
  lemma SaveWithoutDelayIgnoresTimer(hasSelected: bool, saveInterval: uint32, saveTimer: uint32)
    ensures SaveCommand(true, hasSelected, saveInterval, saveTimer) ==
            (if hasSelected then SaveSelected else SaveSelf)
    ensures SaveCommand(true, hasSelected, saveInterval, saveTimer) != SkipSave
  {
  }

  // ----- itemmove: slot positions -----

  /** An inventory position as the player code reads it: the bag in the
      high byte and the slot in the low byte of a uint16, written
      `(bag << 8) | slot` (see ShiftOrIsSum). */
  function EncodePos(bag: uint8, slot: uint8): (pos: uint16)
  {
    bag * 256 + slot
  }

  function PosBag(pos: uint16): uint8 { pos / 256 }
  function PosSlot(pos: uint16): uint8 { pos % 256 }

  /** On 16-bit words, shifting a byte up by 8 leaves the low byte clear, so
      or-ing a second byte into it is an addition. */
  lemma ShiftOrIsSum(b: bv16, s: bv16)
    requires b < 256 && s < 256
    ensures (b << 8) | s == b * 256 + s
  {
  }

  /** The encoding keeps both halves: bag and slot can be read back. */
  lemma EncodePosRoundTrip(bag: uint8, slot: uint8)
    ensures PosBag(EncodePos(bag, slot)) == bag && PosSlot(EncodePos(bag, slot)) == slot
  {
  }

  /** Different slots of the same bag have different positions. */
  lemma EncodePosInjective(bag: uint8, s1: uint8, s2: uint8)
    requires s1 != s2
    ensures EncodePos(bag, s1) != EncodePos(bag, s2)
  {
    EncodePosRoundTrip(bag, s1);
    EncodePosRoundTrip(bag, s2);
  }

  datatype ItemMoveOutcome =
    | MoveMissingArgument
    | MoveSameSlot
    | MoveBadSource
    | MoveBadDestination
    | MoveSwap(src: uint16, dst: uint16)
  {
    /** The handler's return value. */
    predicate Succeeded() {
      MoveSameSlot? || MoveSwap?
    }
  }

  /** `.itemmove <src> <dst>`: both slots are `uint8(atoi(…))` of the two
      words; equal slots do nothing; otherwise both must be valid positions
      of the backpack (`bag0`, INVENTORY_SLOT_BAG_0) — as a source and as a
      destination — and the items at the two encoded positions are
      swapped. */
  function ItemMove(args: string, bag0: uint8, isValidPos: (uint8, uint8, bool) -> bool): ItemMoveOutcome
  {
    if args == [] || Token(args, 0).None? || Token(args, 1).None? then MoveMissingArgument
    else
      var srcSlot := ToUint8(Atoi(Token(args, 0).value));
      var dstSlot := ToUint8(Atoi(Token(args, 1).value));
      if srcSlot == dstSlot then MoveSameSlot
      else if !isValidPos(bag0, srcSlot, true) then MoveBadSource
      else if !isValidPos(bag0, dstSlot, false) then MoveBadDestination
      else MoveSwap(EncodePos(bag0, srcSlot), EncodePos(bag0, dstSlot))
  }

  /** A swap moves between two different positions of the backpack, each
      the encoding of the slot its word names, and only after both
      positions were checked. Equal slots succeed without a swap. */
  lemma ItemMoveSwapsDistinctPositions(args: string, bag0: uint8, isValidPos: (uint8, uint8, bool) -> bool)
    ensures var r := ItemMove(args, bag0, isValidPos);
            r.MoveSwap? ==>
              && Token(args, 0).Some? && Token(args, 1).Some?
              && var srcSlot := ToUint8(Atoi(Token(args, 0).value));
                 var dstSlot := ToUint8(Atoi(Token(args, 1).value));
                 && r.src != r.dst
                 && PosBag(r.src) == bag0 && PosSlot(r.src) == srcSlot
                 && PosBag(r.dst) == bag0 && PosSlot(r.dst) == dstSlot
                 && isValidPos(bag0, srcSlot, true) && isValidPos(bag0, dstSlot, false)
    ensures var r := ItemMove(args, bag0, isValidPos);
            r.Succeeded() <==> r.MoveSameSlot? || r.MoveSwap?
  {
    var r := ItemMove(args, bag0, isValidPos);
    if r.MoveSwap? {
      var srcSlot := ToUint8(Atoi(Token(args, 0).value));
      var dstSlot := ToUint8(Atoi(Token(args, 1).value));
      EncodePosRoundTrip(bag0, srcSlot);
      EncodePosRoundTrip(bag0, dstSlot);
    }
  }

  /** Slot words that differ by 256 name the same slot, so the command does
      nothing for them. */
  lemma ItemMoveSlotsWrap(bag0: uint8, isValidPos: (uint8, uint8, bool) -> bool)
    ensures ItemMove(JoinWords([ToDecimal(3), ToDecimal(259)]), bag0, isValidPos) == MoveSameSlot
  {
    DecimalWordsAreTokens(3, 259);
    AtoiOfDecimal(3);
    AtoiOfDecimal(259);
  }

  /** Two numbers written in decimal with a space between them are the two
      tokens. */
  lemma DecimalWordsAreTokens(m: nat, n: nat)
    ensures Token(JoinWords([ToDecimal(m), ToDecimal(n)]), 0) == Some(ToDecimal(m))
    ensures Token(JoinWords([ToDecimal(m), ToDecimal(n)]), 1) == Some(ToDecimal(n))
  {
    var a := ToDecimal(m);
    var b := ToDecimal(n);
    NoSpaceInDecimal(m);
    NoSpaceInDecimal(n);
    TokensOfJoinedWords([a, b]);
  }

  lemma NoSpaceInDecimal(n: nat)
    ensures ' ' !in ToDecimal(n) && NUL !in ToDecimal(n)
  {
    assert forall i :: 0 <= i < |ToDecimal(n)| ==> IsDigit(ToDecimal(n)[i]);
  }

  // ----- additem: the count -----

  /** What `.additem` does with the item: add `n` of them, or destroy `n`
      of them. */
  datatype CountAction = AddCount(added: int32) | RemoveCount(removed: uint32)

  /** The count word: `strtol` stored in an int32, which is `atoi` (1 when
      there is no word), with 0 read as 1; a negative count destroys its magnitude of
      items (DestroyItemCount takes a uint32). */
  function AddItemCount(countWord: Option<string>): CountAction
  {
    var count: int32 := if countWord.Some? then Atoi(countWord.value) else 1;
    var count': int32 := if count == 0 then 1 else count;
    if count' < 0 then RemoveCount(-(count' as int)) else AddCount(count')
  }

  /** The count is never 0: a positive number of items is added, or a
      positive number destroyed. */
  lemma AddItemCountNeverZero(countWord: Option<string>)
    ensures AddItemCount(countWord).AddCount? ==> AddItemCount(countWord).added >= 1
    ensures AddItemCount(countWord).RemoveCount? ==> AddItemCount(countWord).removed >= 1
  {
  }

  /** No count word and the word "0" both add one item. */
  lemma AddItemCountDefaultsToOne()
    ensures AddItemCount(None) == AddCount(1)
    ensures AddItemCount(Some(ToDecimal(0))) == AddCount(1)
  {
    AtoiOfDecimal(0);
  }

  /** A count written in decimal is read back: a positive one adds that many
      items, a negative one destroys that many. */
  lemma AddItemCountDecimal(n: nat)
    requires 1 <= n < TWO_31
    ensures AddItemCount(Some(ToDecimal(n))) == AddCount(n)
    ensures AddItemCount(Some("-" + ToDecimal(n))) == RemoveCount(n)
  {
    AtoiOfDecimal(n);
    AtoiOfNegatedDecimal(n);
  }

  // ----- damage -----

  datatype DamageOutcome =
    | DamageRejected
      /** `strcmp` is handed a NULL pointer: the behaviour is undefined. */
    | DamageUndefined
    | DamageIgnored
    | FlatDamage(amount: uint32)
    | SchoolDamage(amount: uint32, schoolMask: nat)
    | GameObjectDamage(guid: uint64, loss: int32)
  {
    /** The handler's return value, where it has one. */
    predicate Succeeded() {
      !DamageRejected? && !DamageUndefined?
    }
  }

  /** What the damage handler asks the game world: whether a unit is
      selected (and the caller's player has a target), whether it is a
      player, the security check against it, whether it is alive, whether
      the session has a player, and, for a game object's database guid,
      None when the player's map has no such object, else whether it is a
      destructible building. */
  datatype DamageWorld = DamageWorld(
    hasTarget: bool, targetIsPlayer: bool, hasLowerSecurity: bool -> bool, targetAlive: bool,
    hasPlayer: bool, findGameObject: uint64 -> Option<bool>)

  /** 2 to the power `k`: the value of `1 << k`. */
  function Pow2(k: nat): (p: nat)
    ensures p >= 1
  {
    if k == 0 then 1 else 2 * Pow2(k - 1)
  }

  lemma {:induction false} Pow2Increasing(i: nat, j: nat)
    requires i < j
    ensures Pow2(i) < Pow2(j)
  {
    if j > i + 1 {
      Pow2Increasing(i, j - 1);
    }
  }

  lemma {:induction false} Pow2Add(i: nat, j: nat)
    ensures Pow2(i + j) == Pow2(i) * Pow2(j)
  {
    if j > 0 {
      Pow2Add(i, j - 1);
    }
  }

  /** `1 << k` for a shift below 31 fits in an int, let alone a uint32. */
  lemma Pow2Below31(k: nat)
    requires k < 31
    ensures Pow2(k) < TWO_31
  {
    assert Pow2(4) == 16;
    Pow2Add(4, 4);
    Pow2Add(8, 8);
    Pow2Add(16, 15);
    Pow2Add(8, 7);
    Pow2Add(4, 3);
    Pow2Increasing(k, 31);
  }

  /** `.damage go <guid> <amount>`: the guid is `atoull` of its word and
      the amount `atoi` of the next; a missing word or a zero value fails
      the command. Without a player in the session nothing is done; else
      the object must be on the player's map and be a destructible
      building, and then it loses the amount. The amount word is only
      looked at once the guid word was found. */
  function GameObjectDamageOf(guidStr: Option<string>, damageStr: Option<string>, w: DamageWorld): (r: DamageOutcome)
    ensures !r.DamageUndefined?
  {
    match guidStr
    case None => DamageRejected
    case Some(g) =>
      var guidLow := Atoull(g);
      if guidLow == 0 then DamageRejected
      else
        match damageStr
        case None => DamageRejected
        case Some(d) =>
          var damage := Atoi(d);
          if damage == 0 then DamageRejected
          else if !w.hasPlayer then DamageIgnored
          else if w.findGameObject(guidLow) == Some(true) then GameObjectDamage(guidLow, damage)
          else DamageRejected
  }

  /** `.damage <amount> [school]` on a selected unit: no selection fails
      the command; a player target the caller may not act on
      (HasLowerSecurity in its non-strict mode) fails it; a dead target
      does nothing; a missing amount word fails the command and an amount
      that is not positive does nothing; with no school word the damage
      is plain melee; a school (`uint32(atoi(…))`) at or above
      MAX_SPELL_SCHOOL fails the command, any other gives the mask
      `1 << school`. The school word is only looked at once the amount
      word was found. */
  function UnitDamage(w: DamageWorld, damageStr: Option<string>, schoolStr: Option<string>,
                      maxSpellSchool: nat): (r: DamageOutcome)
    ensures !r.DamageUndefined? && !r.GameObjectDamage?
  {
    if !w.hasTarget || (w.targetIsPlayer && w.hasLowerSecurity(false)) then DamageRejected
    else if !w.targetAlive then DamageIgnored
    else
      match damageStr
      case None => DamageRejected
      case Some(d) =>
        var damageInt := Atoi(d);
        if damageInt <= 0 then DamageIgnored
        else
          match schoolStr
          case None => FlatDamage(damageInt)
          case Some(sc) =>
            var school := ToUint32(Atoi(sc));
            if school >= maxSpellSchool then DamageRejected
            else SchoolDamage(damageInt, Pow2(school))
  }

  /** The damage handler as written. An empty argument text fails the
      command. The first `strtok` call splits off the first word (writing
      a NUL after it); when it returns NULL (an argument text of spaces
      only) that NULL is compared with "go". A first word "go" selects a
      game object by the following words. Otherwise the handler calls
      `strtok` with the argument buffer again, which returns the first
      word once more, and reads the school with `strtok(NULL, …)` after
      that. */
  function Damage(args: string, w: DamageWorld, maxSpellSchool: nat): DamageOutcome
  {
    if args == [] then DamageRejected
    else
      var first := StrTok(args, 0);
      match first.token
      case None => DamageUndefined
      case Some(str) =>
        if str == "go" then
          var guid := StrTok(first.buf, first.save);
          GameObjectDamageOf(guid.token, StrTok(guid.buf, guid.save).token, w)
        else
          var second := StrTok(first.buf, 0);
          UnitDamage(w, second.token, StrTok(second.buf, second.save).token, maxSpellSchool)
  }

  /** The damage handler as its text evidently intends it: the words of the
      argument text are read in order, an argument text without words is
      a missing value, and the word after the amount picks the school. */
  function DamageIntended(args: string, w: DamageWorld, maxSpellSchool: nat): (r: DamageOutcome)
    ensures !r.DamageUndefined?
  {
    match Token(args, 0)
    case None => DamageRejected
    case Some(str) =>
      if str == "go" then GameObjectDamageOf(Token(args, 1), Token(args, 2), w)
      else UnitDamage(w, Token(args, 0), Token(args, 1), maxSpellSchool)
  }

  /** Different schools have different masks, and a mask lies below bit
      MAX_SPELL_SCHOOL. */
  lemma SchoolMaskInjective(school1: nat, school2: nat, maxSpellSchool: nat)
    requires school1 < maxSpellSchool && school2 < maxSpellSchool
    ensures Pow2(school1) < Pow2(maxSpellSchool)
    ensures school1 != school2 ==> Pow2(school1) != Pow2(school2)
  {
    Pow2Increasing(school1, maxSpellSchool);
    if school1 < school2 {
      Pow2Increasing(school1, school2);
    } else if school2 < school1 {
      Pow2Increasing(school2, school1);
    }
  }

  /** A single word is its own only token. */
  lemma SingleWordTokens(word: string)
    requires word != [] && ' ' !in word
    ensures Token(word, 0) == Some(word) && Token(word, 1).None?
  {
    TokensOfJoinedWords([word]);
  }

  /** As written, the handler never reads a school: the second `strtok`
      with the argument buffer returns the first word again and the
      `strtok(NULL, …)` after it returns NULL. Whatever follows the first
      word, a unit is damaged as if the first word were the whole
      argument text, and never in a school. */
  lemma DamageIgnoresSchoolWord(args: string, w: DamageWorld, maxSpellSchool: nat)
    requires NUL !in args
    requires Token(args, 0).Some? && Token(args, 0).value != "go"
    ensures Damage(args, w, maxSpellSchool) == DamageIntended(Token(args, 0).value, w, maxSpellSchool)
    ensures !Damage(args, w, maxSpellSchool).SchoolDamage?
  {
    var word := Token(args, 0).value;
    StrTokAdvances(args, 0);
    assert args[0..] == args;
    StrTokRestart(args);
    SingleWordTokens(word);
  }

  /** `.damage <amount> <school>` on a live unit the caller may act on:
      as written the amount is dealt as plain melee damage whatever the
      school word says (so "100 2" deals 100 melee damage and "100 99"
      succeeds), while the intended reading deals it in the school's mask
      or fails for a school at or above MAX_SPELL_SCHOOL. */
  lemma DamageSchoolWordLost(amount: nat, school: nat, w: DamageWorld, maxSpellSchool: nat)
    requires 1 <= amount < TWO_31 && school < TWO_31 && maxSpellSchool <= 31
    requires w.hasTarget && !w.targetIsPlayer && w.targetAlive
    ensures var args := JoinWords([ToDecimal(amount), ToDecimal(school)]);
            && Damage(args, w, maxSpellSchool) == FlatDamage(amount)
            && DamageIntended(args, w, maxSpellSchool) ==
               (if school < maxSpellSchool then SchoolDamage(amount, Pow2(school)) else DamageRejected)
  {
    var a := ToDecimal(amount);
    var args := JoinWords([a, ToDecimal(school)]);
    DecimalWordsAreTokens(amount, school);
    NoSpaceInDecimal(amount);
    NoSpaceInDecimal(school);
    assert args == a + " " + ToDecimal(school);
    assert IsDigit(a[0]) && a != "go";
    DamageIgnoresSchoolWord(args, w, maxSpellSchool);
    SingleWordTokens(a);
    AtoiOfDecimal(amount);
    DamageOfSchoolWord(args, amount, school, w, maxSpellSchool);
  }

  /** An argument text of spaces only is the one input that makes the
      handler as written compare a NULL pointer with "go". */
  lemma DamageAllSpacesUndefined(args: string, w: DamageWorld, maxSpellSchool: nat)
    requires NUL !in args
    ensures Damage(args, w, maxSpellSchool).DamageUndefined? <==> args != [] && Tokens(args) == []
  {
    StrTokAdvances(args, 0);
    assert args[0..] == args;
  }

  /** Read as intended, an argument text without words is a missing value
      and fails the command, as an empty one does. */
  lemma DamageIntendedAllSpacesRejected(args: string, w: DamageWorld, maxSpellSchool: nat)
    ensures Tokens(args) == [] ==> DamageIntended(args, w, maxSpellSchool) == DamageRejected
    ensures args == [] ==> Damage(args, w, maxSpellSchool) == DamageRejected
  {
  }

  /** Damage dealt in a school (read as intended) is a positive amount with
      the mask of the school word, that school is below MAX_SPELL_SCHOOL
      and the mask fits in an int. */
  lemma DamageSchoolInRange(args: string, w: DamageWorld, maxSpellSchool: nat)
    requires maxSpellSchool <= 31
    ensures var r := DamageIntended(args, w, maxSpellSchool);
            r.SchoolDamage? ==>
              && Token(args, 1).Some?
              && var school := ToUint32(Atoi(Token(args, 1).value));
                 && school < maxSpellSchool
                 && r.schoolMask == Pow2(school) < TWO_31
                 && r.amount >= 1
  {
    var r := DamageIntended(args, w, maxSpellSchool);
    if r.SchoolDamage? {
      Pow2Below31(ToUint32(Atoi(Token(args, 1).value)));
    }
  }

  /** Read as intended, on a live unit the caller may act on, an amount and
      a school written in decimal deal that amount in the mask of that
      school, or fail the command when the school is out of range; a
      school written with a minus sign becomes a uint32 near 2^32 and
      fails too. */
  lemma DamageOfSchoolWord(args: string, amount: nat, school: nat, w: DamageWorld, maxSpellSchool: nat)
    requires 1 <= amount < TWO_31 && school < TWO_31 && maxSpellSchool <= 31
    requires w.hasTarget && !w.targetIsPlayer && w.targetAlive
    requires Token(args, 0) == Some(ToDecimal(amount))
    ensures Token(args, 1) == Some(ToDecimal(school)) ==>
            DamageIntended(args, w, maxSpellSchool) ==
            (if school < maxSpellSchool then SchoolDamage(amount, Pow2(school)) else DamageRejected)
    ensures school > 0 && Token(args, 1) == Some("-" + ToDecimal(school)) ==>
            DamageIntended(args, w, maxSpellSchool) == DamageRejected
  {
    assert IsDigit(ToDecimal(amount)[0]) && ToDecimal(amount) != "go";
    AtoiOfDecimal(amount);
    AtoiOfDecimal(school);
    ToUint32OfInRange(Atoi(ToDecimal(school)));
    if school > 0 {
      AtoiOfNegatedDecimal(school);
      ToUint32OfNegative(Atoi("-" + ToDecimal(school)));
    }
  }

  /** As written: no argument text fails the command; with a first word
      other than "go", no selected unit fails it and a dead target does
      nothing; an amount of 0 does nothing. */
  lemma DamageIgnoredCases(args: string, w: DamageWorld, maxSpellSchool: nat)
    requires NUL !in args
    ensures args == [] ==> Damage(args, w, maxSpellSchool) == DamageRejected
    ensures Token(args, 0).Some? && Token(args, 0).value != "go" ==>
            && (!w.hasTarget ==> Damage(args, w, maxSpellSchool) == DamageRejected)
            && (w.hasTarget && !w.targetIsPlayer && !w.targetAlive ==>
                Damage(args, w, maxSpellSchool) == DamageIgnored)
    ensures Token(args, 0) == Some(ToDecimal(0)) && w.hasTarget && !w.targetIsPlayer && w.targetAlive ==>
            Damage(args, w, maxSpellSchool) == DamageIgnored
  {
    if Token(args, 0).Some? && Token(args, 0).value != "go" {
      DamageIgnoresSchoolWord(args, w, maxSpellSchool);
      SingleWordTokens(Token(args, 0).value);
    }
    if Token(args, 0) == Some(ToDecimal(0)) {
      assert ToDecimal(0) == "0";
      AtoiOfDecimal(0);
    }
  }

  /** On a first word "go" the handler as written reads the following
      words in order, as intended. */
  lemma DamageGameObjectAsIntended(args: string, w: DamageWorld, maxSpellSchool: nat)
    requires NUL !in args
    requires Token(args, 0) == Some("go")
    ensures Damage(args, w, maxSpellSchool) == DamageIntended(args, w, maxSpellSchool)
  {
    StrTokCallsAreTokens(args, 0, 3);
    assert args[0..] == args;
    var r1 := StrTok(args, 0);
    var r2 := StrTok(r1.buf, r1.save);
    var r3 := StrTok(r2.buf, r2.save);
    assert StrTokCalls(r2.buf, r2.save, 1) == [r3.token];
    assert StrTokCalls(r1.buf, r1.save, 2) == [r2.token, r3.token];
    assert StrTokCalls(args, 0, 3) == [r1.token, r2.token, r3.token];
  }

  /** `.damage go <guid> <amount>` with both numbers in decimal: a zero
      guid or amount fails the command; without a session player nothing
      is done; else a destructible building with that guid on the
      player's map loses the amount, and any other object fails the
      command. */
  lemma DamageGameObjectArgs(guid: nat, amount: nat, w: DamageWorld, maxSpellSchool: nat)
    requires guid <= ULLONG_MAX && amount < TWO_31
    ensures var args := JoinWords(["go", ToDecimal(guid), ToDecimal(amount)]);
            Damage(args, w, maxSpellSchool) ==
            if guid == 0 || amount == 0 then DamageRejected
            else if !w.hasPlayer then DamageIgnored
            else if w.findGameObject(guid) == Some(true) then GameObjectDamage(guid, amount)
            else DamageRejected
  {
    var args := JoinWords(["go", ToDecimal(guid), ToDecimal(amount)]);
    GoWordsAreTokens(guid, amount);
    DamageGameObjectAsIntended(args, w, maxSpellSchool);
    assert Damage(args, w, maxSpellSchool) ==
           GameObjectDamageOf(Some(ToDecimal(guid)), Some(ToDecimal(amount)), w);
    AtoulDecimal(guid, []);
    AtoiOfDecimal(amount);
  }

  /** The words of `go <guid> <amount>` written in decimal are its tokens. */
  lemma GoWordsAreTokens(guid: nat, amount: nat)
    ensures var args := JoinWords(["go", ToDecimal(guid), ToDecimal(amount)]);
            && NUL !in args
            && Token(args, 0) == Some("go")
            && Token(args, 1) == Some(ToDecimal(guid))
            && Token(args, 2) == Some(ToDecimal(amount))
  {
    var g, d := ToDecimal(guid), ToDecimal(amount);
    var words := ["go", g, d];
    NoSpaceInDecimal(guid);
    NoSpaceInDecimal(amount);
    TokensOfJoinedWords(words);
    assert words[1..] == [g, d];
    assert [g, d][1..] == [d];
    assert JoinWords([g, d]) == g + " " + d;
    assert JoinWords(words) == "go" + " " + (g + " " + d);
  }

  // ----- mute: the stored mute time -----

  datatype MuteOutcome = MuteRejected | MuteStored(minutes: uint32, online: bool)

  /** `.mute [name] <minutes> [reason]`: the minutes are
      `uint32(atoi(delay))`; the command fails when there is no delay word,
      no target, or the caller's security is not strictly above the
      target's (HasLowerSecurity in its strict mode). `target` is None when
      no player was found, else whether the account is online. */
  function Mute(delay: Option<string>, target: Option<bool>, hasLowerSecurity: bool -> bool): MuteOutcome
  {
    if delay.None? || target.None? then MuteRejected
    else if hasLowerSecurity(true) then MuteRejected
    else MuteStored(ToUint32(Atoi(delay.value)), target.value)
  }

  /** The mute time stored for an online target: the current time plus the
      duration in seconds, computed as a uint32 product. */
  function MuteTimeOnline(now: int, minutes: uint32): int
  {
    now + ToUint32(minutes * MINUTE)
  }

  /** The mute time stored for an offline target: the duration, made
      negative through `-int32(…)` (the login code starts the mute then). */
  function MuteTimeOffline(minutes: uint32): int32
  {
    ToInt32(-(ToInt32(ToUint32(minutes * MINUTE)) as int))
  }

  /** Up to 35791394 minutes (`minutes * MINUTE` below 2^31) the two
      encodings agree: online the time is `minutes * MINUTE` seconds ahead,
      offline it is stored as that duration negated. */
  lemma MuteEncodingsAgree(now: int, minutes: uint32)
    requires minutes * MINUTE < TWO_31
    ensures MuteTimeOnline(now, minutes) == now + minutes * MINUTE
    ensures MuteTimeOffline(minutes) == -(minutes * MINUTE)
    ensures MuteTimeOffline(minutes) == -(MuteTimeOnline(now, minutes) - now)
  {
  }

  /** Beyond that the uint32 product and the int32 negation wrap: 35791395
      minutes are stored as a positive offline time, and 71582789 minutes
      online mute for 44 seconds. */
  lemma MuteEncodingsWrap(now: int)
    ensures MuteTimeOnline(now, 35791395) == now + 2147483700
    ensures MuteTimeOffline(35791395) == 2147483596
    ensures MuteTimeOnline(now, 71582789) == now + 44
  {
  }

  /** The encodings without the wrap: the product and the negation in 64
      bits, as the int64 column that receives them allows. */
  function MuteTimeOnline64(now: int, minutes: uint32): int
  {
    now + minutes * MINUTE
  }

  function MuteTimeOffline64(minutes: uint32): int64
  {
    -(minutes * MINUTE)
  }

  /** For every uint32 number of minutes the 64-bit encodings store the
      duration exactly, and the offline time is the online duration
      negated. */
  lemma MuteEncodings64Agree(now: int, minutes: uint32)
    ensures MuteTimeOnline64(now, minutes) - now == minutes * MINUTE
    ensures MuteTimeOffline64(minutes) <= 0
    ensures MuteTimeOffline64(minutes) == -(MuteTimeOnline64(now, minutes) - now)
  {
  }

  /** A delay written in decimal is the number of minutes; a negative delay
      wraps to a number of minutes near 2^32. */
  lemma MuteDelayDecimal(n: nat, online: bool, hasLowerSecurity: bool -> bool)
    requires n < TWO_31
    requires !hasLowerSecurity(true)
    ensures Mute(Some(ToDecimal(n)), Some(online), hasLowerSecurity) == MuteStored(n, online)
    ensures n > 0 ==> Mute(Some("-" + ToDecimal(n)), Some(online), hasLowerSecurity) == MuteStored(TWO_32 - n, online)
  {
    AtoiOfDecimal(n);
    ToUint32OfInRange(Atoi(ToDecimal(n)));
    if n > 0 {
      AtoiOfNegatedDecimal(n);
      ToUint32OfNegative(Atoi("-" + ToDecimal(n)));
    }
  }

  // ----- pinfo: personal data and money -----

  /** Whether pinfo shows the target account's personal data: the caller
      holds RBAC_PERM_COMMANDS_PINFO_CHECK_PERSONAL_DATA and either has no
      session (the console) or a session security at least the target
      account's stored security. */
  predicate MayDisclose(hasPermission: bool, session: Option<AccountType>, targetSecurity: uint8)
  {
    hasPermission && (session.None? || session.value.Level() >= targetSecurity)
  }

  /** The gate is a non-strict comparison: equal security discloses; the
      console with the permission always sees the data; without the
      permission nobody does; and a higher session security sees whatever a
      lower one sees. */
  lemma DisclosureGate(hasPermission: bool, a: AccountType, b: AccountType, targetSecurity: uint8)
    ensures MayDisclose(true, Some(a), a.Level())
    ensures MayDisclose(true, None, targetSecurity)
    ensures !MayDisclose(false, None, targetSecurity) && !MayDisclose(false, Some(a), targetSecurity)
    ensures a.Level() <= b.Level() && MayDisclose(hasPermission, Some(a), targetSecurity) ==>
            MayDisclose(hasPermission, Some(b), targetSecurity)
    ensures MayDisclose(true, Some(a), targetSecurity) <==> targetSecurity <= a.Level()
  {
  }

  /** The account row pinfo reads. */
  datatype AccountRecord = AccountRecord(eMail: string, regMail: string, lastIp: string, lastLogin: string)

  /** The four personal fields as pinfo prints them: the row's values, the
      last IP followed by " (country)" when the IP location is known; or the
      unauthorized text in all four. */
  function PersonalData(disclose: bool, row: AccountRecord, country: Option<string>, unauthorized: string): AccountRecord
  {
    if disclose then
      var ip := if country.Some? then row.lastIp + " (" + country.value + ")" else row.lastIp;
      AccountRecord(row.eMail, row.regMail, ip, row.lastLogin)
    else AccountRecord(unauthorized, unauthorized, unauthorized, unauthorized)
  }

  /** Without the gate no field of the row is shown; with it every field is
      shown, the IP possibly followed by the country. */
  lemma PersonalDataGated(hasPermission: bool, session: Option<AccountType>, targetSecurity: uint8,
                          row: AccountRecord, country: Option<string>, unauthorized: string)
    ensures var shown := PersonalData(MayDisclose(hasPermission, session, targetSecurity), row, country, unauthorized);
            && (!MayDisclose(hasPermission, session, targetSecurity) ==>
                  shown == AccountRecord(unauthorized, unauthorized, unauthorized, unauthorized))
            && (MayDisclose(hasPermission, session, targetSecurity) ==>
                  && shown.eMail == row.eMail && shown.regMail == row.regMail && shown.lastLogin == row.lastLogin
                  && row.lastIp <= shown.lastIp
                  && (country.None? ==> shown.lastIp == row.lastIp))
  {
  }

  datatype Coins = Coins(gold: uint32, silver: uint32, copper: uint32)

  /** The money line of pinfo: a uint64 amount of copper split by GOLD and
      SILVER (the copper values of a gold and a silver coin), each part
      stored in a uint32. */
  function MoneySplit(money: uint64, gold: nat, silver: nat): Coins
    requires gold > 0 && silver > 0
  {
    Coins(ToUint32(money / gold), ToUint32((money % gold) / silver), ToUint32((money % gold) % silver))
  }

  /** With coin values that fit the parts (a silver at most 2^32 copper,
      a gold at most 2^32 silvers), the silver and copper parts recombine
      to the copper left over after the gold coins, and the copper part is
      below a silver. */
  lemma MoneySplitRemainder(money: uint64, gold: nat, silver: nat)
    requires gold > 0 && silver > 0
    requires silver <= TWO_32 && gold <= silver * TWO_32
    ensures var c := MoneySplit(money, gold, silver);
            && c.copper < silver
            && c.silver * silver + c.copper == money % gold
  {
    var c := MoneySplit(money, gold, silver);
    var r := money % gold;
    var q := r / silver;
    var m := r % silver;
    DivisionParts(r, silver);
    assert r == q * silver + m;
    QuotientBelow(r, silver, gold);
    ToUint32OfInRange(q);
    assert c.silver == q;
    ToUint32OfInRange(m);
    assert c.copper == m;
  }

  /** The copper part is below a silver, the silver and copper parts
      together are below a gold, and when the number of gold coins fits in
      32 bits the three parts add up to the amount. */
  lemma MoneySplitRecombines(money: uint64, gold: nat, silver: nat)
    requires gold > 0 && silver > 0
    requires silver <= TWO_32 && gold <= silver * TWO_32
    ensures var c := MoneySplit(money, gold, silver);
            && c.copper < silver
            && c.silver * silver + c.copper < gold
            && (money / gold < TWO_32 ==> c.gold * gold + c.silver * silver + c.copper == money)
  {
    var c := MoneySplit(money, gold, silver);
    MoneySplitRemainder(money, gold, silver);
    if money / gold < TWO_32 {
      ToUint32OfInRange(money / gold);
      assert c.gold == money / gold;
      DivisionParts(money, gold);
      assert c.gold * gold + money % gold == money;
    }
  }

  lemma DivisionParts(a: nat, b: nat)
    requires b > 0
    ensures a == (a / b) * b + a % b && 0 <= a % b < b
  {
  }

  /** A remainder below `gold` holds fewer than 2^32 silvers when a gold is
      at most 2^32 silvers. */
  lemma QuotientBelow(r: nat, silver: nat, gold: nat)
    requires silver > 0 && r < gold <= silver * TWO_32
    ensures r / silver < TWO_32
  {
    DivisionParts(r, silver);
  }

  // ----- setskill: bounds and the default maximum -----

  /** The target's standing in a skill: its value (0 when it does not have
      the skill), its pure maximum and its step. */
  datatype SkillState = SkillState(value: uint16, pureMax: uint16, step: uint16)

  datatype SetSkillOutcome = SkillRejected | SkillSet(skill: uint32, step: uint16, level: uint32, max: uint16)

  /** The maximum setskill uses: the third word (`atoul`) if given, else
      the target's pure maximum if it has the skill, else the level; in
      every case stored in a uint16. */
  function SkillMax(maxWord: Option<string>, hasSkill: bool, pureMax: uint16, level: uint32): uint16
  {
    ToUint16(if maxWord.Some? then Atoul(maxWord.value) else if hasSkill then pureMax else level)
  }

  /** `.setskill <skill> <level> [max]` (the skill word comes from
      extractKeyFromLink, passed in as `skillWord`): the skill id is `atoul`
      in a uint32 and must not be 0; there must be a target and a skill
      line; then 1 <= level <= max is required, and the skill is set with
      the target's step, or step 1 for a skill it does not have yet. */
  function SetSkill(skillWord: Option<string>, levelWord: Option<string>, maxWord: Option<string>,
                    hasTarget: bool, skillLineExists: uint32 -> bool, state: uint32 -> SkillState): SetSkillOutcome
  {
    if skillWord.None? || levelWord.None? then SkillRejected
    else
      var skill := ToUint32(Atoul(skillWord.value));
      if skill == 0 then SkillRejected
      else
        var level := ToUint32(Atoul(levelWord.value));
        if !hasTarget || !skillLineExists(skill) then SkillRejected
        else
          var hasSkill := state(skill).value != 0;
          var max := SkillMax(maxWord, hasSkill, state(skill).pureMax, level);
          if level == 0 || level > max || max <= 0 then SkillRejected
          else SkillSet(skill, if hasSkill then state(skill).step else 1, level, max)
  }

  /** SetSkill is reached exactly when the skill id is not 0, there is a
      target and a skill line, and 1 <= level <= max; the `max <= 0` test
      adds nothing to `level > max`. */
  lemma SetSkillBounds(skillWord: Option<string>, levelWord: Option<string>, maxWord: Option<string>,
                       hasTarget: bool, skillLineExists: uint32 -> bool, state: uint32 -> SkillState)
    ensures var r := SetSkill(skillWord, levelWord, maxWord, hasTarget, skillLineExists, state);
            r.SkillSet? <==>
              && skillWord.Some? && levelWord.Some?
              && var skill := ToUint32(Atoul(skillWord.value));
                 var level := ToUint32(Atoul(levelWord.value));
                 && skill != 0 && hasTarget && skillLineExists(skill)
                 && 1 <= level <= SkillMax(maxWord, state(skill).value != 0, state(skill).pureMax, level)
    ensures var r := SetSkill(skillWord, levelWord, maxWord, hasTarget, skillLineExists, state);
            r.SkillSet? ==> r.skill != 0 && 1 <= r.level <= r.max && r.level < TWO_16
  {
  }

  /** The maximum defaults to the pure maximum for a skill the target has
      and to the level for a new one; a given maximum wins in both cases. */
  lemma SkillMaxDefaults(maxWord: Option<string>, pureMax: uint16, level: uint32)
    ensures SkillMax(None, true, pureMax, level) == pureMax
    ensures SkillMax(None, false, pureMax, level) == level % TWO_16
    ensures maxWord.Some? ==> SkillMax(maxWord, true, pureMax, level) == SkillMax(maxWord, false, pureMax, level)
                                == Atoul(maxWord.value) % TWO_16
  {
  }

  /** A level beyond 16 bits is always refused: every maximum is a uint16. */
  lemma SetSkillLevelAbove16Bits(skillWord: Option<string>, levelWord: Option<string>, maxWord: Option<string>,
                                 hasTarget: bool, skillLineExists: uint32 -> bool, state: uint32 -> SkillState)
    requires levelWord.Some? && ToUint32(Atoul(levelWord.value)) >= TWO_16
    ensures SetSkill(skillWord, levelWord, maxWord, hasTarget, skillLineExists, state) == SkillRejected
  {
  }

  /** A new skill without a maximum word is learnt at step 1 with the level
      as its maximum. */
  lemma SetSkillNewSkill(skillWord: string, levelWord: string, skill: nat, level: nat,
                         skillLineExists: uint32 -> bool, state: uint32 -> SkillState)
    requires 1 <= skill < TWO_32 && 1 <= level < TWO_16
    requires Atoul(skillWord) == skill && Atoul(levelWord) == level
    requires skillLineExists(skill) && state(skill).value == 0
    ensures SetSkill(Some(skillWord), Some(levelWord), None, true, skillLineExists, state)
            == SkillSet(skill, 1, level, level)
  {
    ToUint32OfInRange(Atoul(skillWord));
    ToUint32OfInRange(Atoul(levelWord));
    ToUint16OfInRange(ToUint32(Atoul(levelWord)));
  }

  // ----- unstuck: the location -----

  /** What extractPlayerTarget found for unstuck's player word. */
  datatype UnstuckTarget = NoTarget | OfflineTarget(hasHomebind: bool) | OnlineTarget(inFlightOrCombat: bool)

  datatype UnstuckOutcome =
    | CastUnstuckSpell
    | UnstuckFailed
    | HomebindSaved
    | TeleportToInn
    | RepopAtGraveyard
    | TeleportToStartZone
  {
    /** The handler's return value. */
    predicate Succeeded() {
      !UnstuckFailed?
    }
  }

  /** The spell cast by a player who may not give arguments ("Stuck"). */
  const SPELL_UNSTUCK_ID: nat := 7355

  /** `.unstuck <player> [inn|graveyard|startzone]`: a session without
      RBAC_PERM_COMMANDS_USE_UNSTUCK_WITH_ARGS casts the Stuck spell and
      succeeds whatever the arguments. Otherwise the location defaults to
      "inn"; an offline player is moved to their home bind in the database;
      an online player in flight or in combat cannot be moved; any other
      location word fails. */
  function Unstuck(restricted: bool, args: string, findTarget: string -> UnstuckTarget): UnstuckOutcome
  {
    if restricted then CastUnstuckSpell
    else if args == [] then UnstuckFailed
    else
      match Token(args, 0)
      case None => UnstuckFailed
      case Some(playerWord) =>
        var location := if Token(args, 1).Some? then Token(args, 1).value else "inn";
        match findTarget(playerWord)
        case NoTarget => UnstuckFailed
        case OfflineTarget(hasHomebind) => if hasHomebind then HomebindSaved else UnstuckFailed
        case OnlineTarget(busy) =>
          if busy then UnstuckFailed
          else if location == "inn" then TeleportToInn
          else if location == "graveyard" then RepopAtGraveyard
          else if location == "startzone" then TeleportToStartZone
          else UnstuckFailed
  }

  /** With only a player word an online, idle player goes to the inn; the
      three location words choose their destination; an unknown word fails;
      a player without the permission only ever casts the spell. */
  lemma UnstuckLocations(name: string, loc: string, findTarget: string -> UnstuckTarget)
    requires name != [] && ' ' !in name && loc != [] && ' ' !in loc
    requires findTarget(name) == OnlineTarget(false)
    ensures Unstuck(false, name, findTarget) == TeleportToInn
    ensures Unstuck(false, JoinWords([name, loc]), findTarget) ==
            (if loc == "inn" then TeleportToInn
             else if loc == "graveyard" then RepopAtGraveyard
             else if loc == "startzone" then TeleportToStartZone
             else UnstuckFailed)
    ensures Unstuck(true, JoinWords([name, loc]), findTarget) == CastUnstuckSpell
  {
    TokensOfJoinedWords([name]);
    TokensOfJoinedWords([name, loc]);
  }

  /** A player in flight or in combat is never moved, whatever the
      location. */
  lemma UnstuckBusyFails(args: string, findTarget: string -> UnstuckTarget)
    requires Token(args, 0).Some? && findTarget(Token(args, 0).value) == OnlineTarget(true)
    ensures !Unstuck(false, args, findTarget).Succeeded()
  {
  }
}
