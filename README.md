# misc_commandscript and the shared Common.h helpers, in Dafny

This project models two parts of a World of Warcraft server.

- The shared helpers of `src/common/Common.h`:
  - the `atoul`/`atoull` text-to-number helpers;
  - the `TimeConstants` and `AccountTypes` enumerations;
  - `Ashamane::AnyData`, the string-keyed value bag with its proc counters.
- The game-master command script `misc_commandscript` (`src/server/scripts/Commands/cs_misc.cpp`):
  - its command table;
  - the argument rules of the handlers that compute something.

The modules are:

- `Types` (`types.dfy`): the fixed-width integer types and their explicit wrap-around conversions (`uint8(x)`, `uint32(x)`, `int32(x)`).
- `CStdlib` (`c_stdlib.dfy`):
  - `strtoul`/`strtol` with base 10, as section 7.22.1.4 of ISO/IEC 9899:2011 defines them;
  - `atoi` as the `int` conversion of `strtol`;
  - `strncmp` on NUL-terminated strings;
  - the word split that the handlers' `strtok(…, " ")` calls perform;
  - glibc's `strtok` on a buffer: the NUL it writes after each token and the position it saves for the next call with NULL;
  - `ToDecimal`, the printing function the conversions invert.
- `Common` (`common.dfy`): the time constants, the account security levels, `atoul` and `atoull`.
- `Ashamane` (`any_data.dfy`): `AnyData` as a class over a map, with `IncrementSpec` and `ProcSpec` as the reference semantics of its counters.
- `CommandTable` (`command_table.dfy`): the 53 entries that `GetCommands()` returns, and an exact-name lookup over them (the ChatHandler dispatcher, which may match abbreviations, is not modelled).
- `MiscRules` (`misc_rules.dfy`): the pure rules, each a function of the argument text and of the answers the game world gives. They cover:
  - the linkgrave and neargrave team words;
  - the save throttle;
  - itemmove's slot encoding;
  - the additem count;
  - the damage handler, as written and as its text intends it;
  - the mute time encodings;
  - the pinfo disclosure gate and money split;
  - setskill's bounds;
  - unstuck's locations.
- `PlayerState` (`player_state.dfy`): the handlers that change a player in place.
  - showarea and hidearea rewrite one word of the explored-zones array.
  - dev sets or clears the developer flag.
  - freeze threads its local variables through its argument cases.

## Model

| member | source | states |
|---|---|---|
| CStdlib.StrToUnsigned | src/common/Common.h:64-65 | `strtoul`/`strtoull` with base 10: the subject after white space and an optional sign, negated in the unsigned type, saturated at the maximum, 0 without digits; the result never exceeds the maximum |
| CStdlib.Atoi | src/server/scripts/Commands/cs_misc.cpp:746-747 | `atoi` as the int32 conversion of the 64-bit `strtol` |
| CStdlib.StrNEqual | src/server/scripts/Commands/cs_misc.cpp:1073-1076 | `strncmp(a, b, n) == 0`: the first n characters agree, a NUL in both ending the comparison |
| CStdlib.Tokens | src/server/scripts/Commands/cs_misc.cpp:738-742 | the words that `strtok(args, " ")` and then `strtok(NULL, " ")` return: non-empty, free of spaces, made of the text's characters |
| CStdlib.StrTok | src/server/scripts/Commands/cs_misc.cpp:2317-2402 | one glibc `strtok(…, " ")` call on a buffer: skip spaces, NULL at the end, else the token up to the next space or NUL, the space overwritten with NUL and the next position saved |
| CStdlib.StrTokAdvances | src/server/scripts/Commands/cs_misc.cpp:738-742 | on a NUL-free buffer a call returns the first token and leaves a NUL-free rest whose tokens are the remaining ones |
| CStdlib.StrTokCallsAreTokens | src/server/scripts/Commands/cs_misc.cpp:738-742 | a call with the buffer followed by calls with NULL returns exactly the words of Tokens in order, then NULL |
| CStdlib.StrTokRestart | src/server/scripts/Commands/cs_misc.cpp:2392-2402 | calling with the buffer again after a first token returns that token again, and the next call with NULL returns NULL |
| CStdlib.StrToUnsignedRoundTrip | src/common/Common.h:64-65 | `strtoul` reads back the decimal text of every value up to the maximum of the return type |
| CStdlib.StrToUnsignedSaturates | src/common/Common.h:64-65 | a decimal magnitude above the maximum converts to the maximum (ULONG_MAX) |
| CStdlib.StrToUnsignedNegated | src/common/Common.h:64-65 | a minus-signed subject is negated in the unsigned type: `-n` gives `max + 1 - n` |
| CStdlib.NoDigitsConvertToZero | src/common/Common.h:64-65 | text that starts with no space, sign or digit performs no conversion and gives 0 |
| CStdlib.AtoiRoundTrip | src/server/scripts/Commands/cs_misc.cpp:746-747 | `atoi` reads back the decimal text, signed, of every int32 value |
| CStdlib.StrNEqualIsPrefix | src/server/scripts/Commands/cs_misc.cpp:1113-1122 | `strncmp(a, b, strlen(a)) == 0` holds exactly when `a` is a prefix of `b` |
| CStdlib.StrNEqualIsEqual | src/server/scripts/Commands/cs_misc.cpp:1073-1076 | `strncmp(a, b, strlen(b) + 1) == 0` holds exactly when `a` equals `b` |
| CStdlib.TokensOfJoinedWords | src/server/scripts/Commands/cs_misc.cpp:738-744 | the successive `strtok(…, " ")` calls return the words that were joined by single spaces |
| Common.AccountTypeOf | src/common/Common.h:80-87 | the enumerator of a numeric level exists exactly for 0..4 and has that level |
| Common.AccountLevelsOrdered | src/common/Common.h:80-87 | PLAYER < MODERATOR < GAMEMASTER < ADMINISTRATOR < CONSOLE; a level names exactly one enumerator |
| Common.ConsoleIsHighest | src/common/Common.h:86 | every account level other than the console is strictly below the console level |
| Common.Atoul | src/common/Common.h:64 | `atoul` is `strtoul` base 10 with a 64-bit `unsigned long` |
| Common.Atoull | src/common/Common.h:65 | `atoull` is `strtoull` base 10 with a 64-bit `unsigned long long` |
| Common.AtoulDecimal | src/common/Common.h:64-65 | `atoul` and `atoull` read back every 64-bit value printed in decimal, stop at a non-digit, and read text without a number as 0 |
| Ashamane.AnyData.constructor | src/common/Common.h:166-213 | a new bag holds no entry |
| Ashamane.AnyData.Set | src/common/Common.h:170-174 | the key is inserted or overwritten, GetValue of its kind returns it, and other keys keep their values |
| Ashamane.AnyData.GetValue | src/common/Common.h:176-182 | the stored value when the key exists, else the default |
| Ashamane.AnyData.Exist | src/common/Common.h:184-187 | whether the bag holds the key |
| Ashamane.AnyData.Remove | src/common/Common.h:189-192 | the key is erased and nothing else changes; erasing an absent key changes nothing |
| Ashamane.AnyData.Increment | src/common/Common.h:194-199 | the counter becomes (old value, 0 when absent, + increment) mod 2^32, is stored and returned |
| Ashamane.AnyData.IncrementOrProcCounter | src/common/Common.h:201-209 | after the increment the counter fires exactly when it reached the maximum, and the key is then absent |
| Ashamane.IncrementReturnsNewValue | src/common/Common.h:194-199 | the returned value is the previous counter plus the increment modulo 2^32; other keys are untouched |
| Ashamane.ProcSpecCases | src/common/Common.h:201-209 | fires iff the new value is at least the maximum; a maximum of 0 always fires; the map is updated or the key removed accordingly |
| Ashamane.ProcRunBelowMax | src/common/Common.h:201-209 | before the threshold, i unit increments from an absent key leave i in the counter and fire nothing |
| Ashamane.ProcFiresEveryNth | src/common/Common.h:201-209 | with maximum N and unit increments, N-1 calls return false, the N-th true, and the bag is as before |
| Ashamane.ProcThreeCalls | src/common/Common.h:201-209 | three calls with a maximum of 3 return false, false, true and leave the key absent |
| Ashamane.ThreeProcCalls | src/common/Common.h:201-209 | the same three calls on an AnyData object, which ends with its original contents |
| CommandTable.GetCommands | src/server/scripts/Commands/cs_misc.cpp:68-123 | the table has 53 entries, each the declared name, permission, console flag and handler |
| CommandTable.Lookup | src/server/scripts/Commands/cs_misc.cpp:68-123 | a found entry is in the table with exactly that name; nothing is found iff no entry has the name |
| CommandTable.CommandNamesDistinct | src/server/scripts/Commands/cs_misc.cpp:68-123 | the 53 command names are pairwise distinct |
| CommandTable.LookupFindsCommand | src/server/scripts/Commands/cs_misc.cpp:68-123 | looking up any entry's name finds exactly that entry |
| CommandTable.LookupByName | src/server/scripts/Commands/cs_misc.cpp:68-123 | the same, for the name given as text |
| CommandTable.ConsoleEligibleEntries | src/server/scripts/Commands/cs_misc.cpp:68-123 | an entry may run from the console iff its name is one of the 13 console commands |
| CommandTable.PlainWordsNotFound | src/server/scripts/Commands/cs_misc.cpp:121-122 | the names "auras  " and "light  " carry two trailing spaces, so "auras" and "light" find no entry |
| CommandTable.PaddedAurasFound | src/server/scripts/Commands/cs_misc.cpp:121 | the padded name "auras  " finds the auras entry |
| CommandTable.PaddedLightFound | src/server/scripts/Commands/cs_misc.cpp:122 | the padded name "light  " finds the light entry |
| CommandTable.AddMKeyUsesAddItemPermission | src/server/scripts/Commands/cs_misc.cpp:70-72 | addmkey is a command of its own but is gated by additem's permission |
| CommandTable.LightUsesListAurasPermission | src/server/scripts/Commands/cs_misc.cpp:121-122 | light has its own handler but is gated by the list-auras permission |
| MiscRules.LinkGraveArgs | src/server/scripts/Commands/cs_misc.cpp:1058-1078 | the graveyard id as `uint32(atoul)` of the first word and the team of the second word; None when a word is missing or the team word is unknown |
| MiscRules.NearGraveTeam | src/server/scripts/Commands/cs_misc.cpp:1111-1122 | no text is any team; otherwise the team whose name `strncmp` matches over the text's length; None for other text |
| MiscRules.LinkGraveTeamIsExact | src/server/scripts/Commands/cs_misc.cpp:1069-1078 | linkgrave's team word is Horde iff it is exactly "horde", Alliance iff exactly "alliance", and an error otherwise |
| MiscRules.LinkGraveArgsOfWords | src/server/scripts/Commands/cs_misc.cpp:1058-1078 | for `<id> <word>` the graveyard id is read back and the team is the one the word names, or the command fails |
| MiscRules.NearGraveTeamIsPrefix | src/server/scripts/Commands/cs_misc.cpp:1113-1122 | neargrave reads no text as any team, and every non-empty prefix of "horde" or "alliance" as that team; all other text fails |
| MiscRules.TeamWordsCompared | src/server/scripts/Commands/cs_misc.cpp:1069-1122 | "hor" and "all" are teams for neargrave but errors for linkgrave; "hordes" fails both |
| MiscRules.SaveCommand | src/server/scripts/Commands/cs_misc.cpp:903-925 | whom `.save` writes: the selection or the caller with the permission, else the caller when autosave is off or 20 s of a longer interval have passed, else nobody |
| MiscRules.SaveThrottle | src/server/scripts/Commands/cs_misc.cpp:918-921 | without the permission a player is saved iff autosave is off, or the interval exceeds 20 s and at least 20 s have passed |
| MiscRules.SaveGuardPreventsWrap | src/server/scripts/Commands/cs_misc.cpp:920 | for a short interval the unguarded uint32 subtraction would wrap and let every save through; the guard refuses it |
| MiscRules.SaveWithoutDelayIgnoresTimer | src/server/scripts/Commands/cs_misc.cpp:907-915 | with the permission the selected player, or the caller, is saved whatever the timer |
| MiscRules.ShiftOrIsSum | src/server/scripts/Commands/cs_misc.cpp:758-759 | on 16-bit words, the bag shifted left by 8 and or-ed with the slot is `bag * 256 + slot` |
| MiscRules.EncodePosRoundTrip | src/server/scripts/Commands/cs_misc.cpp:758-759 | the bag and the slot are read back from an encoded position |
| MiscRules.EncodePosInjective | src/server/scripts/Commands/cs_misc.cpp:758-759 | different slots of the same bag have different positions |
| MiscRules.ItemMove | src/server/scripts/Commands/cs_misc.cpp:733-764 | missing words fail; equal `uint8(atoi)` slots do nothing; else both slots must be valid backpack positions and the two encoded positions are swapped |
| MiscRules.ItemMoveSwapsDistinctPositions | src/server/scripts/Commands/cs_misc.cpp:733-762 | a swap is between two distinct backpack positions that encode the slots of the two words, each checked valid beforehand |
| MiscRules.ItemMoveSlotsWrap | src/server/scripts/Commands/cs_misc.cpp:746-750 | slot words 3 and 259 name the same uint8 slot, so the command succeeds without moving anything |
| MiscRules.AddItemCount | src/server/scripts/Commands/cs_misc.cpp:1301-1351 | the count `atoi` of the word (1 without one), 0 read as 1; a negative count destroys its magnitude |
| MiscRules.AddItemCountNeverZero | src/server/scripts/Commands/cs_misc.cpp:1301-1351 | the count is never 0: a positive number of items is added or a positive number destroyed |
| MiscRules.AddItemCountDefaultsToOne | src/server/scripts/Commands/cs_misc.cpp:1301-1309 | no count word, and the word "0", both add one item |
| MiscRules.AddItemCountDecimal | src/server/scripts/Commands/cs_misc.cpp:1301-1351 | a decimal count n adds n items; "-n" destroys n items |
| MiscRules.Pow2Below31 | src/server/scripts/Commands/cs_misc.cpp:2417 | `1 << school` for a school below 31 fits in an int |
| MiscRules.SchoolMaskInjective | src/server/scripts/Commands/cs_misc.cpp:2413-2417 | different schools below MAX_SPELL_SCHOOL have different masks, each below `1 << MAX_SPELL_SCHOOL` |
| MiscRules.Damage | src/server/scripts/Commands/cs_misc.cpp:2312-2417 | the handler as written: an empty text fails; an all-space text compares NULL with "go"; "go" reads the game-object words; otherwise the unit rules with the amount from the restarted `strtok` and the school from the NULL call after it |
| MiscRules.GameObjectDamageOf | src/server/scripts/Commands/cs_misc.cpp:2319-2374 | `go`: a missing or zero guid (`atoull`) or amount (`atoi`) fails; no session player does nothing; a destructible building on the map loses the amount; any other object fails |
| MiscRules.UnitDamage | src/server/scripts/Commands/cs_misc.cpp:2377-2417 | no selection or a protected player fails; a dead target does nothing; no amount fails, a non-positive one does nothing; no school is melee; a school at or above MAX_SPELL_SCHOOL fails, else its mask |
| MiscRules.DamageIntended | src/server/scripts/Commands/cs_misc.cpp:2317-2417 | the handler read as intended: the words in order, an all-space text a missing value, the word after the amount the school |
| MiscRules.DamageIgnoresSchoolWord | src/server/scripts/Commands/cs_misc.cpp:2392-2410 | as written, a unit is damaged as if the first word were the whole text, and never in a school |
| MiscRules.DamageSchoolWordLost | src/server/scripts/Commands/cs_misc.cpp:2392-2417 | for `<amount> <school>` the handler as written deals flat melee damage, while the intended reading deals school damage or fails out of range (see Findings) |
| MiscRules.DamageAllSpacesUndefined | src/server/scripts/Commands/cs_misc.cpp:2314-2319 | the handler as written reaches `strcmp(NULL, "go")` exactly for a non-empty text without words (see Findings) |
| MiscRules.DamageIntendedAllSpacesRejected | src/server/scripts/Commands/cs_misc.cpp:2314-2319 | an empty text fails; read as intended, a text without words fails too |
| MiscRules.DamageSchoolInRange | src/server/scripts/Commands/cs_misc.cpp:2402-2417 | read as intended, school damage has a positive amount and the mask of the school word; that school is below MAX_SPELL_SCHOOL and the mask fits in an int |
| MiscRules.DamageOfSchoolWord | src/server/scripts/Commands/cs_misc.cpp:2402-2417 | read as intended, decimal amount and school words deal that amount in that school's mask, or fail out of range; a negative school fails |
| MiscRules.DamageIgnoredCases | src/server/scripts/Commands/cs_misc.cpp:2312-2398 | as written, an empty text fails; after a first word other than "go", no selection fails and a dead target does nothing; an amount of 0 does nothing |
| MiscRules.DamageGameObjectAsIntended | src/server/scripts/Commands/cs_misc.cpp:2317-2345 | after a first word "go" the handler as written reads the following words in order |
| MiscRules.DamageGameObjectArgs | src/server/scripts/Commands/cs_misc.cpp:2319-2374 | for `go <guid> <amount>`: a zero guid or amount fails, no session player does nothing, a destructible building loses the amount, any other object fails |
| MiscRules.Mute | src/server/scripts/Commands/cs_misc.cpp:2000-2031 | a missing delay or target, or a target of equal or higher security, fails; else `uint32(atoi)` minutes are stored for the online or offline target |
| MiscRules.MuteTimeOnline | src/server/scripts/Commands/cs_misc.cpp:2042-2043 | now plus the uint32 product `minutes * MINUTE` |
| MiscRules.MuteTimeOffline | src/server/scripts/Commands/cs_misc.cpp:2055-2056 | the uint32 product `minutes * MINUTE` cast to int32 and negated |
| MiscRules.MuteDelayDecimal | src/server/scripts/Commands/cs_misc.cpp:2004-2030 | a decimal delay is the number of minutes; "-n" wraps to 2^32 - n minutes |
| MiscRules.MuteEncodingsAgree | src/server/scripts/Commands/cs_misc.cpp:2042-2055 | while `minutes * MINUTE` is below 2^31, online stores now plus the duration and offline stores the duration negated |
| MiscRules.MuteEncodingsWrap | src/server/scripts/Commands/cs_misc.cpp:2042-2055 | beyond that the encodings wrap (see Findings) |
| MiscRules.MuteEncodings64Agree | src/server/scripts/Commands/cs_misc.cpp:2042-2055 | computed in 64 bits, both encodings store the exact duration for every uint32 number of minutes |
| MiscRules.MayDisclose | src/server/scripts/Commands/cs_misc.cpp:1783-1784 | the permission, and no session or a session security at least the target's |
| MiscRules.PersonalData | src/server/scripts/Commands/cs_misc.cpp:1783-1804 | the row's fields with the country after the IP, or the unauthorized text in every field |
| MiscRules.DisclosureGate | src/server/scripts/Commands/cs_misc.cpp:1783-1784 | personal data needs the permission, and either no session or a session security at least the target's; the comparison is non-strict and monotone |
| MiscRules.PersonalDataGated | src/server/scripts/Commands/cs_misc.cpp:1783-1804 | without the gate every field is the unauthorized text; with it the row is shown, the IP possibly followed by the country |
| MiscRules.MoneySplit | src/server/scripts/Commands/cs_misc.cpp:1917-1919 | gold, silver and copper as `money / GOLD`, `(money % GOLD) / SILVER` and `(money % GOLD) % SILVER`, each stored in a uint32 |
| MiscRules.MoneySplitRemainder | src/server/scripts/Commands/cs_misc.cpp:1917-1919 | the silver and copper parts recombine to `money % GOLD`, and the copper part is below a silver |
| MiscRules.MoneySplitRecombines | src/server/scripts/Commands/cs_misc.cpp:1917-1919 | copper < SILVER, silver and copper together < GOLD, and the parts recombine to the money when the gold count fits in 32 bits |
| MiscRules.SkillMax | src/server/scripts/Commands/cs_misc.cpp:1580 | the max word (`atoul`), else the pure maximum of a known skill, else the level, stored in a uint16 |
| MiscRules.SetSkill | src/server/scripts/Commands/cs_misc.cpp:1537-1590 | a missing or zero skill id, no target or skill line, or a level outside 1..max fails; else the skill is set with its step, or step 1 when new |
| MiscRules.SetSkillBounds | src/server/scripts/Commands/cs_misc.cpp:1550-1588 | the skill is set iff skill id ≠ 0, a target and a skill line exist, and 1 ≤ level ≤ max |
| MiscRules.SkillMaxDefaults | src/server/scripts/Commands/cs_misc.cpp:1580 | the maximum is the max word if given, else the pure maximum of a known skill, else the level; each is truncated to uint16 |
| MiscRules.SetSkillLevelAbove16Bits | src/server/scripts/Commands/cs_misc.cpp:1580-1583 | a level of 65536 or more is always refused |
| MiscRules.SetSkillNewSkill | src/server/scripts/Commands/cs_misc.cpp:1576-1588 | a skill the target lacks, with no max word, is learnt at step 1 with the level as its maximum |
| MiscRules.Unstuck | src/server/scripts/Commands/cs_misc.cpp:971-1052 | a restricted session casts the Stuck spell; else the player word's target decides: offline to the home bind, online and idle to the location word (inn by default), else failure |
| MiscRules.UnstuckLocations | src/server/scripts/Commands/cs_misc.cpp:976-1052 | inn is the default; the three location words choose their destination; other words fail; a restricted session only casts spell 7355 |
| MiscRules.UnstuckBusyFails | src/server/scripts/Commands/cs_misc.cpp:1018-1030 | a player in flight or in combat is never moved |
| PlayerState.AreaMask | src/server/scripts/Commands/cs_misc.cpp:1207 | the area's bit within its word, `1 << (AreaBit % 32)` |
| PlayerState.ShowAreaSpec | src/server/scripts/Commands/cs_misc.cpp:1192-1209 | the explored words with the area's bit or-ed into its word, or unchanged when the area is rejected |
| PlayerState.HideAreaSpec | src/server/scripts/Commands/cs_misc.cpp:1236-1253 | the explored words with the area's bit xor-ed into its word, or unchanged when the area is rejected |
| PlayerState.AreaOffset | src/server/scripts/Commands/cs_misc.cpp:1192-1205 | an area is accepted iff its AreaBit is non-negative and its word `AreaBit / 32` lies inside the array |
| PlayerState.ShowWordSets | src/server/scripts/Commands/cs_misc.cpp:1207-1209 | or-ing the mask sets the area's bit, keeps every set bit, and is idempotent |
| PlayerState.HideWordToggles | src/server/scripts/Commands/cs_misc.cpp:1251-1253 | xor-ing the mask flips the area's bit, and twice restores the word |
| PlayerState.HideWordKeeps | src/server/scripts/Commands/cs_misc.cpp:1251-1253 | xor-ing the mask keeps the bits at every other position |
| PlayerState.ShowAreaMarks | src/server/scripts/Commands/cs_misc.cpp:1199-1209 | showarea marks an accepted area explored and writes no other word |
| PlayerState.ShowAreaKeeps | src/server/scripts/Commands/cs_misc.cpp:1207-1209 | showarea never makes an explored area unexplored |
| PlayerState.ShowAreaIdempotent | src/server/scripts/Commands/cs_misc.cpp:1207-1209 | a second showarea of the same area changes nothing |
| PlayerState.HideAreaToggles | src/server/scripts/Commands/cs_misc.cpp:1243-1253 | hidearea toggles an accepted area's explored state and writes no other word |
| PlayerState.HideAreaKeeps | src/server/scripts/Commands/cs_misc.cpp:1251-1253 | hidearea keeps the state of every area whose bit is at another position |
| PlayerState.HideAreaTwice | src/server/scripts/Commands/cs_misc.cpp:1251-1253 | hiding the same area twice restores the words |
| PlayerState.RejectedAreaUnchanged | src/server/scripts/Commands/cs_misc.cpp:1192-1205 | a missing area, a negative AreaBit, or a word beyond the array leaves the player unchanged |
| PlayerState.Player.ShowArea | src/server/scripts/Commands/cs_misc.cpp:1171-1213 | succeeds iff the area is accepted; the explored array becomes ShowAreaSpec of the old array |
| PlayerState.Player.HideArea | src/server/scripts/Commands/cs_misc.cpp:1215-1257 | succeeds iff the area is accepted; the explored array becomes HideAreaSpec of the old array |
| PlayerState.Player.Dev | src/server/scripts/Commands/cs_misc.cpp:156-186 | the new flags, the notification and the result are those of DevSpec; explored zones are untouched |
| PlayerState.DevSpec | src/server/scripts/Commands/cs_misc.cpp:156-186 | no argument reports the flag; "on" sets it, "off" clears it, each with a notice; any other argument fails |
| PlayerState.DevCases | src/server/scripts/Commands/cs_misc.cpp:156-186 | succeeds iff the argument is empty, "on" or "off", and then sends a notification; only "on" and "off" change the flags; no argument reports the flag |
| PlayerState.DevOnSetsFlag | src/server/scripts/Commands/cs_misc.cpp:169-174 | "on" sets the developer bit and no other, is idempotent, and a later query reports on |
| PlayerState.DevOffClearsFlag | src/server/scripts/Commands/cs_misc.cpp:176-181 | "off" clears the developer bit and no other, undoes "on", and a later query reports off |
| PlayerState.FreezeTarget | src/server/scripts/Commands/cs_misc.cpp:2528-2576 | the player and duration the argument cases pick: the selection for no words or a numeric first word, else the named player with the second word's or the configured duration; None for an all-space text |
| PlayerState.FreezeSpec | src/server/scripts/Commands/cs_misc.cpp:2514-2610 | no player or the caller fails; a refused aura fails; else the player is frozen, with `duration * 1000` ms when the duration is nonzero |
| PlayerState.Freeze | src/server/scripts/Commands/cs_misc.cpp:2514-2610 | the handler's locals and branches produce exactly FreezeSpec's outcome |
| PlayerState.FreezeNeverSelf | src/server/scripts/Commands/cs_misc.cpp:2579-2609 | nobody freezes themself; a frozen player received the aura; failure means an all-space argument or a refused aura |
| PlayerState.FreezeArgumentCases | src/server/scripts/Commands/cs_misc.cpp:2529-2576 | a numeric first word freezes the selection for that many seconds; a name freezes that player for the second word's duration or the configured one |
| PlayerState.FreezeDurationMilliseconds | src/server/scripts/Commands/cs_misc.cpp:2600-2601 | a nonzero duration that fits sets the aura to duration × 1000 ms |

## Left out

- Database queries and writes are not modelled. This covers the `SaveToDB` calls, the homebind query and update, the mute row, and pinfo's character and account rows. The rows pinfo reads are passed in as values.
- Game-world actions are left out: teleports, `RepopAtGraveyard`, `SwapItem`, `DealDamage`, armor reduction, `AddAura`, `SetDuration`, and casting and failing spells. The model returns which action a handler takes, with its arguments.
- The ChatHandler and world helpers are parameters. These are:
  - `HasLowerSecurity`, `extractPlayerTarget` and `extractOptFirstArg`;
  - `extractKeyFromLink`, `isNumeric`, `normalizePlayerName` with `FindPlayerByName`, and `IsValidPos`;
  - the area and skill-line lookups, and `GetSelectedPlayer`;
  - the configuration values.
- Chat messages, their localisation and the mute reason text are left out.
- Constants defined outside the modelled files are parameters: GOLD, SILVER, HORDE/ALLIANCE, PLAYER_EXPLORED_ZONES_SIZE (the array length), INVENTORY_SLOT_BAG_0, MAX_SPELL_SCHOOL, PLAYER_FLAGS_DEVELOPER and CONFIG_GM_FREEZE_DURATION. The RBAC permission ids are named enumerators without numbers.
- The clock is the parameter `now`. Time formatting and the `int64` range of `now + …` are left out.
- `strtok` is modelled twice. `StrTok` is glibc's call on a buffer, with the NUL it writes and the saved position. `Tokens` is the plain split into words.
  - The split is exact for handlers that call `strtok(args, " ")` once and then only `strtok(NULL, " ")`, as `StrTokCallsAreTokens` proves. These are itemmove, linkgrave, unstuck and freeze. Additem and setskill receive their later words as parameters.
  - Damage calls `strtok` with the buffer a second time, so `MiscRules.Damage` runs `StrTok` itself.
- Damage on a game object is modelled down to the lookup. The lookup itself (`GetObjectFromPlayerMapByDbGuid`, `IsDestructibleBuilding`) is the parameter `findGameObject`. `ModifyHealth` is left out.
- Damage's spell word (cs_misc.cpp:2422-2440) is not modelled. As written it is never reached. `DamageIntended` ends at the school mask, and the absorb and resist computation of that branch is a world action.
- The remaining handlers of the table are listed in the table but their bodies are not modelled. They are gps, aura, appear, summon, cooldown, kick, recall and the rest, and they only call into the game world.
- Ashamane.AnyData.GetValue: requires that a stored value has the kind asked for. The C++ throws `bad_any_cast` instead; that exception path is not modelled.
- Ashamane.AnyData.Increment: requires that the key, if present, holds a counter, for the same reason.
- PlayerState.AreaMask: computes `1 << (AreaBit % 32)` on an unsigned 32-bit word. In C++ the shift by 31 is signed, and the result is converted to uint32.
- PlayerState.Player.Dev: PLAYER_FLAGS is modelled as the set of positions of its set bits, not as a 32-bit word.
- MiscRules.AddItemCount: negating INT32_MIN is modelled as giving 2^31 destroyed items. In C++ that negation is undefined.
- MiscRules.MuteTimeOffline: the int32 negation of INT32_MIN wraps as two's complement. In C++ that negation is undefined.
- Concurrency, and the world session's own mute bookkeeping, are left out.

## Findings

| source | as written | input that shows it | evidently intended | confidence | as-written member | corrected member |
|---|---|---|---|---|---|---|
| src/server/scripts/Commands/cs_misc.cpp:2042-2055 | `notSpeakTime * MINUTE` is a uint32 product; offline it is then cast to int32 and negated | 35791395 minutes offline store +2147483596, a positive (absolute) mute time; 71582789 minutes online mute for 44 seconds | the duration `minutes * 60` in 64 bits, negated for an offline target | not executed | MiscRules.MuteEncodingsWrap | MiscRules.MuteEncodings64Agree |
| src/server/scripts/Commands/cs_misc.cpp:2392-2402 | after the first `strtok` at 2317 has written a NUL behind the first word, `strtok((char*)args, " ")` at 2392 returns that word again and saves the position of the NUL, so `strtok(NULL, " ")` at 2402 is always NULL | `.damage 100 2` on a live creature deals 100 melee damage instead of 100 in school 2 (mask 4); `.damage 100 99` succeeds instead of failing | the amount is the first word and the school the word after it | not executed | MiscRules.DamageSchoolWordLost | MiscRules.DamageOfSchoolWord |
| src/server/scripts/Commands/cs_misc.cpp:2314-2319 | `if (!*args)` only rejects the empty text; for a text of spaces the `strtok` at 2317 returns NULL, which 2319 hands to `strcmp` | `.damage` followed by spaces only, if the command dispatcher passes them on | a text without words fails like an empty one | not executed; reachable only if the dispatcher passes an all-space argument text | MiscRules.DamageAllSpacesUndefined | MiscRules.DamageIntendedAllSpacesRejected |
