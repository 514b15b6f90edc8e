/** The command table of misc_commandscript (cs_misc.cpp): one entry per
    chat command with its name, the RBAC permission it requires, whether the
    console may run it, its handler and its help text. The dispatcher that
    reads the table lives in ChatHandler, which is not part of this model;
    what is modelled is the table itself and an exact-name lookup over it
    (how the dispatcher matches a typed name, by abbreviation or otherwise,
    is not modelled). */
module CommandTable {
  import opened Types
  import opened CStdlib

  /** The rbac::RBAC_PERM_COMMAND_* permissions the table names. Their
      numeric ids come from the RBAC header, which is not part of this
      model; only their identity matters here. */
  datatype Permission =
      PermAdditem
    | PermAdditemset
    | PermAppear
    | PermAura
    | PermBank
    | PermBindsight
    | PermCombatstop
    | PermCometome
    | PermCommands
    | PermCooldown
    | PermDamage
    | PermDev
    | PermDie
    | PermDismount
    | PermDistance
    | PermFreeze
    | PermGps
    | PermGuid
    | PermHelp
    | PermHidearea
    | PermItemmove
    | PermKick
    | PermLinkgrave
    | PermListfreeze
    | PermMaxskill
    | PermMovegens
    | PermMute
    | PermMutehistory
    | PermNeargrave
    | PermPinfo
    | PermPlayall
    | PermPossess
    | PermPvpstats
    | PermRecall
    | PermRepairitems
    | PermRespawn
    | PermRevive
    | PermSaveall
    | PermSave
    | PermSetskill
    | PermShowarea
    | PermSummon
    | PermUnaura
    | PermUnbindsight
    | PermUnfreeze
    | PermUnmute
    | PermUnpossess
    | PermUnstuck
    | PermWchange
    | PermMailbox
    | PermListAuras

  /** The static handler functions of misc_commandscript. */
  datatype Handler =
      HandleAddItemCommand
    | HandleAddItemSetCommand
    | HandleAddMKeyCommand
    | HandleAppearCommand
    | HandleAuraCommand
    | HandleBankCommand
    | HandleBindSightCommand
    | HandleCombatStopCommand
    | HandleComeToMeCommand
    | HandleCommandsCommand
    | HandleCooldownCommand
    | HandleDamageCommand
    | HandleDevCommand
    | HandleDieCommand
    | HandleDismountCommand
    | HandleGetDistanceCommand
    | HandleFreezeCommand
    | HandleGPSCommand
    | HandleGUIDCommand
    | HandleHelpCommand
    | HandleHideAreaCommand
    | HandleItemMoveCommand
    | HandleKickPlayerCommand
    | HandleLinkGraveCommand
    | HandleListFreezeCommand
    | HandleMaxSkillCommand
    | HandleMovegensCommand
    | HandleMuteCommand
    | HandleMuteInfoCommand
    | HandleNearGraveCommand
    | HandlePInfoCommand
    | HandlePlayAllCommand
    | HandlePossessCommand
    | HandlePvPstatsCommand
    | HandleRecallCommand
    | HandleRepairitemsCommand
    | HandleRespawnCommand
    | HandleReviveCommand
    | HandleSaveAllCommand
    | HandleSaveCommand
    | HandleSetSkillCommand
    | HandleShowAreaCommand
    | HandleSummonCommand
    | HandleUnAuraCommand
    | HandleUnbindSightCommand
    | HandleUnFreezeCommand
    | HandleUnmuteCommand
    | HandleUnPossessCommand
    | HandleUnstuckCommand
    | HandleChangeWeather
    | HandleMailBoxCommand
    | HandleAurasCommand
    | HandleLightCommand

  datatype ChatCommand = ChatCommand(
    name: string,
    permission: Permission,
    allowConsole: bool,
    handler: Handler,
    help: string)

  /** The entry at position `i` of the table, in declaration order. */
  function Entry(i: nat): ChatCommand
    requires i < 53
  {
    match i
    case 0  => ChatCommand("additem",     PermAdditem,         false, HandleAddItemCommand,       "")
    case 1  => ChatCommand("additemset",  PermAdditemset,      false, HandleAddItemSetCommand,    "")
    case 2  => ChatCommand("addmkey",     PermAdditem,         false, HandleAddMKeyCommand,       "")
    case 3  => ChatCommand("appear",      PermAppear,          false, HandleAppearCommand,        "")
    case 4  => ChatCommand("aura",        PermAura,            false, HandleAuraCommand,          "")
    case 5  => ChatCommand("bank",        PermBank,            false, HandleBankCommand,          "")
    case 6  => ChatCommand("bindsight",   PermBindsight,       false, HandleBindSightCommand,     "")
    case 7  => ChatCommand("combatstop",  PermCombatstop,      true,  HandleCombatStopCommand,    "")
    case 8  => ChatCommand("cometome",    PermCometome,        false, HandleComeToMeCommand,      "")
    case 9  => ChatCommand("commands",    PermCommands,        true,  HandleCommandsCommand,      "")
    case 10 => ChatCommand("cooldown",    PermCooldown,        false, HandleCooldownCommand,      "")
    case 11 => ChatCommand("damage",      PermDamage,          false, HandleDamageCommand,        "")
    case 12 => ChatCommand("dev",         PermDev,             false, HandleDevCommand,           "")
    case 13 => ChatCommand("die",         PermDie,             false, HandleDieCommand,           "")
    case 14 => ChatCommand("dismount",    PermDismount,        false, HandleDismountCommand,      "")
    case 15 => ChatCommand("distance",    PermDistance,        false, HandleGetDistanceCommand,   "")
    case 16 => ChatCommand("freeze",      PermFreeze,          false, HandleFreezeCommand,        "")
    case 17 => ChatCommand("gps",         PermGps,             false, HandleGPSCommand,           "")
    case 18 => ChatCommand("guid",        PermGuid,            false, HandleGUIDCommand,          "")
    case 19 => ChatCommand("help",        PermHelp,            true,  HandleHelpCommand,          "")
    case 20 => ChatCommand("hidearea",    PermHidearea,        false, HandleHideAreaCommand,      "")
    case 21 => ChatCommand("itemmove",    PermItemmove,        false, HandleItemMoveCommand,      "")
    case 22 => ChatCommand("kick",        PermKick,            true,  HandleKickPlayerCommand,    "")
    case 23 => ChatCommand("linkgrave",   PermLinkgrave,       false, HandleLinkGraveCommand,     "")
    case 24 => ChatCommand("listfreeze",  PermListfreeze,      false, HandleListFreezeCommand,    "")
    case 25 => ChatCommand("maxskill",    PermMaxskill,        false, HandleMaxSkillCommand,      "")
    case 26 => ChatCommand("movegens",    PermMovegens,        false, HandleMovegensCommand,      "")
    case 27 => ChatCommand("mute",        PermMute,            true,  HandleMuteCommand,          "")
    case 28 => ChatCommand("mutehistory", PermMutehistory,     true,  HandleMuteInfoCommand,      "")
    case 29 => ChatCommand("neargrave",   PermNeargrave,       false, HandleNearGraveCommand,     "")
    case 30 => ChatCommand("pinfo",       PermPinfo,           true,  HandlePInfoCommand,         "")
    case 31 => ChatCommand("playall",     PermPlayall,         false, HandlePlayAllCommand,       "")
    case 32 => ChatCommand("possess",     PermPossess,         false, HandlePossessCommand,       "")
    case 33 => ChatCommand("pvpstats",    PermPvpstats,        true,  HandlePvPstatsCommand,      "")
    case 34 => ChatCommand("recall",      PermRecall,          false, HandleRecallCommand,        "")
    case 35 => ChatCommand("repairitems", PermRepairitems,     true,  HandleRepairitemsCommand,   "")
    case 36 => ChatCommand("respawn",     PermRespawn,         false, HandleRespawnCommand,       "")
    case 37 => ChatCommand("revive",      PermRevive,          true,  HandleReviveCommand,        "")
    case 38 => ChatCommand("saveall",     PermSaveall,         true,  HandleSaveAllCommand,       "")
    case 39 => ChatCommand("save",        PermSave,            false, HandleSaveCommand,          "")
    case 40 => ChatCommand("setskill",    PermSetskill,        false, HandleSetSkillCommand,      "")
    case 41 => ChatCommand("showarea",    PermShowarea,        false, HandleShowAreaCommand,      "")
    case 42 => ChatCommand("summon",      PermSummon,          false, HandleSummonCommand,        "")
    case 43 => ChatCommand("unaura",      PermUnaura,          false, HandleUnAuraCommand,        "")
    case 44 => ChatCommand("unbindsight", PermUnbindsight,     false, HandleUnbindSightCommand,   "")
    case 45 => ChatCommand("unfreeze",    PermUnfreeze,        false, HandleUnFreezeCommand,      "")
    case 46 => ChatCommand("unmute",      PermUnmute,          true,  HandleUnmuteCommand,        "")
    case 47 => ChatCommand("unpossess",   PermUnpossess,       false, HandleUnPossessCommand,     "")
    case 48 => ChatCommand("unstuck",     PermUnstuck,         true,  HandleUnstuckCommand,       "")
    case 49 => ChatCommand("wchange",     PermWchange,         false, HandleChangeWeather,        "")
    case 50 => ChatCommand("mailbox",     PermMailbox,         false, HandleMailBoxCommand,       "")
    case 51 => ChatCommand("auras  ",     PermListAuras,       false, HandleAurasCommand,         "")
    case 52 => ChatCommand("light  ",     PermListAuras,       false, HandleLightCommand,         "")
  }

  /** GetCommands(): the table. */
  function GetCommands(): (table: seq<ChatCommand>)
    ensures |table| == 53
    ensures forall i :: 0 <= i < 53 ==> table[i] == Entry(i)
  {
    seq(53, i requires 0 <= i < 53 => Entry(i))
  }

  /** The names of `table`, in order. */
  function Names(table: seq<ChatCommand>): (names: seq<string>)
    ensures |names| == |table|
    ensures forall i :: 0 <= i < |table| ==> names[i] == table[i].name
  {
    if table == [] then [] else [table[0].name] + Names(table[1..])
  }

  /** Exact, case-sensitive lookup of a command name: the first entry whose
      name equals `name`, or None. */
  function Lookup(table: seq<ChatCommand>, name: string): (r: Option<ChatCommand>)
    ensures r.Some? ==> r.value in table && r.value.name == name
    ensures r.None? <==> name !in Names(table)
  {
    if table == [] then None
    else if table[0].name == name then Some(table[0])
    else
      assert Names(table) == [table[0].name] + Names(table[1..]);
      Lookup(table[1..], name)
  }

  predicate DistinctNames(table: seq<ChatCommand>) {
    forall i, j :: 0 <= i < j < |table| ==> table[i].name != table[j].name
  }

  /** In a table with distinct names, looking up an entry's name finds that
      entry. */
  lemma {:induction false} LookupFindsEntry(table: seq<ChatCommand>, i: nat)
    requires DistinctNames(table)
    requires i < |table|
    ensures Lookup(table, table[i].name) == Some(table[i])
  {
    if i > 0 {
      assert table[0].name != table[i].name;
      assert table[1..][i - 1] == table[i];
      LookupFindsEntry(table[1..], i - 1);
    }
  }

  /** The length of a name with its first and last character: a key that
      already tells the 53 names of the table apart. */
  function NameKey(n: string): (int, char, char)
  {
    if n == [] then (0, NUL, NUL) else (|n|, n[0], n[|n| - 1])
  }

  /** The position of the entry whose name has key `k`, or -1 when no
      entry does (the entries grouped by first letter). */
  function IndexOfKey(k: (int, char, char)): int
  {
    if k.1 == 'a' then (if k == (7, 'a', 'm') then 0 else if k == (10, 'a', 't') then 1 else if k == (7, 'a', 'y') then 2 else if k == (6, 'a', 'r') then 3 else if k == (4, 'a', 'a') then 4 else if k == (7, 'a', ' ') then 51 else -1)
    else if k.1 == 'b' then (if k == (4, 'b', 'k') then 5 else if k == (9, 'b', 't') then 6 else -1)
    else if k.1 == 'c' then (if k == (10, 'c', 'p') then 7 else if k == (8, 'c', 'e') then 8 else if k == (8, 'c', 's') then 9 else if k == (8, 'c', 'n') then 10 else -1)
    else if k.1 == 'd' then (if k == (6, 'd', 'e') then 11 else if k == (3, 'd', 'v') then 12 else if k == (3, 'd', 'e') then 13 else if k == (8, 'd', 't') then 14 else if k == (8, 'd', 'e') then 15 else -1)
    else if k.1 == 'f' then (if k == (6, 'f', 'e') then 16 else -1)
    else if k.1 == 'g' then (if k == (3, 'g', 's') then 17 else if k == (4, 'g', 'd') then 18 else -1)
    else if k.1 == 'h' then (if k == (4, 'h', 'p') then 19 else if k == (8, 'h', 'a') then 20 else -1)
    else if k.1 == 'i' then (if k == (8, 'i', 'e') then 21 else -1)
    else if k.1 == 'k' then (if k == (4, 'k', 'k') then 22 else -1)
    else if k.1 == 'l' then (if k == (9, 'l', 'e') then 23 else if k == (10, 'l', 'e') then 24 else if k == (7, 'l', ' ') then 52 else -1)
    else if k.1 == 'm' then (if k == (8, 'm', 'l') then 25 else if k == (8, 'm', 's') then 26 else if k == (4, 'm', 'e') then 27 else if k == (11, 'm', 'y') then 28 else if k == (7, 'm', 'x') then 50 else -1)
    else if k.1 == 'n' then (if k == (9, 'n', 'e') then 29 else -1)
    else if k.1 == 'p' then (if k == (5, 'p', 'o') then 30 else if k == (7, 'p', 'l') then 31 else if k == (7, 'p', 's') then 32 else if k == (8, 'p', 's') then 33 else -1)
    else if k.1 == 'r' then (if k == (6, 'r', 'l') then 34 else if k == (11, 'r', 's') then 35 else if k == (7, 'r', 'n') then 36 else if k == (6, 'r', 'e') then 37 else -1)
    else if k.1 == 's' then (if k == (7, 's', 'l') then 38 else if k == (4, 's', 'e') then 39 else if k == (8, 's', 'l') then 40 else if k == (8, 's', 'a') then 41 else if k == (6, 's', 'n') then 42 else -1)
    else if k.1 == 'u' then (if k == (6, 'u', 'a') then 43 else if k == (11, 'u', 't') then 44 else if k == (8, 'u', 'e') then 45 else if k == (6, 'u', 'e') then 46 else if k == (9, 'u', 's') then 47 else if k == (7, 'u', 'k') then 48 else -1)
    else if k.1 == 'w' then (if k == (7, 'w', 'e') then 49 else -1)
    else -1
  }

  // KeysOfEntries0 .. KeysOfEntries4 check, position by position, that the
  // key of each entry's name leads back to that position and that the
  // entry's console flag is the one ConsolePosition lists.
  lemma KeysOfEntries0()
    ensures forall k :: 0 <= k < 11 ==> IndexOfKey(NameKey(Entry(k).name)) == k
    ensures forall k :: 0 <= k < 11 ==> (Entry(k).allowConsole <==> ConsolePosition(k))
  {
    forall k | 0 <= k < 11
      ensures IndexOfKey(NameKey(Entry(k).name)) == k
      ensures Entry(k).allowConsole <==> ConsolePosition(k)
    {
      if k == 0 {
      } else if k == 1 {
      } else if k == 2 {
      } else if k == 3 {
      } else if k == 4 {
      } else if k == 5 {
      } else if k == 6 {
      } else if k == 7 {
      } else if k == 8 {
      } else if k == 9 {
      } else if k == 10 {
      }
    }
  }

  lemma KeysOfEntries1()
    ensures forall k :: 11 <= k < 22 ==> IndexOfKey(NameKey(Entry(k).name)) == k
    ensures forall k :: 11 <= k < 22 ==> (Entry(k).allowConsole <==> ConsolePosition(k))
  {
    forall k | 11 <= k < 22
      ensures IndexOfKey(NameKey(Entry(k).name)) == k
      ensures Entry(k).allowConsole <==> ConsolePosition(k)
    {
      if k == 11 {
      } else if k == 12 {
      } else if k == 13 {
      } else if k == 14 {
      } else if k == 15 {
      } else if k == 16 {
      } else if k == 17 {
      } else if k == 18 {
      } else if k == 19 {
      } else if k == 20 {
      } else if k == 21 {
      }
    }
  }

  lemma KeysOfEntries2()
    ensures forall k :: 22 <= k < 33 ==> IndexOfKey(NameKey(Entry(k).name)) == k
    ensures forall k :: 22 <= k < 33 ==> (Entry(k).allowConsole <==> ConsolePosition(k))
  {
    forall k | 22 <= k < 33
      ensures IndexOfKey(NameKey(Entry(k).name)) == k
      ensures Entry(k).allowConsole <==> ConsolePosition(k)
    {
      if k == 22 {
      } else if k == 23 {
      } else if k == 24 {
      } else if k == 25 {
      } else if k == 26 {
      } else if k == 27 {
      } else if k == 28 {
      } else if k == 29 {
      } else if k == 30 {
      } else if k == 31 {
      } else if k == 32 {
      }
    }
  }

  lemma KeysOfEntries3()
    ensures forall k :: 33 <= k < 43 ==> IndexOfKey(NameKey(Entry(k).name)) == k
    ensures forall k :: 33 <= k < 43 ==> (Entry(k).allowConsole <==> ConsolePosition(k))
  {
    forall k | 33 <= k < 43
      ensures IndexOfKey(NameKey(Entry(k).name)) == k
      ensures Entry(k).allowConsole <==> ConsolePosition(k)
    {
      if k == 33 {
      } else if k == 34 {
      } else if k == 35 {
      } else if k == 36 {
      } else if k == 37 {
      } else if k == 38 {
      } else if k == 39 {
      } else if k == 40 {
      } else if k == 41 {
      } else if k == 42 {
      }
    }
  }

  lemma KeysOfEntries4()
    ensures forall k :: 43 <= k < 53 ==> IndexOfKey(NameKey(Entry(k).name)) == k
    ensures forall k :: 43 <= k < 53 ==> (Entry(k).allowConsole <==> ConsolePosition(k))
  {
    forall k | 43 <= k < 53
      ensures IndexOfKey(NameKey(Entry(k).name)) == k
      ensures Entry(k).allowConsole <==> ConsolePosition(k)
    {
      if k == 43 {
      } else if k == 44 {
      } else if k == 45 {
      } else if k == 46 {
      } else if k == 47 {
      } else if k == 48 {
      } else if k == 49 {
      } else if k == 50 {
      } else if k == 51 {
      } else if k == 52 {
      }
    }
  }

  /** The key of every entry's name leads back to that entry's position. */
  lemma KeysOfEntries()
    ensures forall k :: 0 <= k < 53 ==> IndexOfKey(NameKey(GetCommands()[k].name)) == k
    ensures forall k :: 0 <= k < 53 ==> (GetCommands()[k].allowConsole <==> ConsolePosition(k))
  {
    KeysOfEntries0();
    KeysOfEntries1();
    KeysOfEntries2();
    KeysOfEntries3();
    KeysOfEntries4();
  }

  /** The 53 names of the table are pairwise distinct. */
  lemma CommandNamesDistinct()
    ensures DistinctNames(GetCommands())
  {
    KeysOfEntries();
  }

  /** Looking up the name of any entry finds exactly that entry. */
  lemma LookupFindsCommand(k: nat)
    requires k < 53
    ensures Lookup(GetCommands(), GetCommands()[k].name) == Some(GetCommands()[k])
  {
    CommandNamesDistinct();
    LookupFindsEntry(GetCommands(), k);
  }

  /** The same, for a name given as text. */
  lemma LookupByName(k: nat, name: string)
    requires k < 53 && name == GetCommands()[k].name
    ensures Lookup(GetCommands(), name) == Some(GetCommands()[k])
  {
    LookupFindsCommand(k);
  }

  /** The commands the console may run. */
  const ConsoleCommandNames: set<string> :=
    {"combatstop", "commands", "help", "kick", "mute", "mutehistory", "pinfo", "pvpstats", "repairitems", "revive", "saveall", "unmute", "unstuck"}

  /** The positions of the console-eligible entries. */
  predicate ConsolePosition(k: int) {
    k == 7 || k == 9 || k == 19 || k == 22 || k == 27 || k == 28 || k == 30 ||
    k == 33 || k == 35 || k == 37 || k == 38 || k == 46 || k == 48
  }

  lemma ConsoleNamesAtPositions()
    ensures forall k :: ConsolePosition(k) ==> 0 <= k < 53 && Entry(k).name in ConsoleCommandNames
  {
  }

  lemma ConsoleNamesKeys()
    ensures forall n :: n in ConsoleCommandNames ==> ConsolePosition(IndexOfKey(NameKey(n)))
  {
  }

  /** An entry may run from the console exactly when its name is one of the
      13 in ConsoleCommandNames. */
  lemma ConsoleEligibleEntries()
    ensures forall k :: 0 <= k < 53 ==>
              (GetCommands()[k].allowConsole <==> GetCommands()[k].name in ConsoleCommandNames)
  {
    KeysOfEntries();
    ConsoleNamesAtPositions();
    ConsoleNamesKeys();
  }

  /** No entry is named `name` when no entry's name has its key. */
  lemma {:induction false} NotANameOfTable(name: string)
    requires IndexOfKey(NameKey(name)) == -1
    ensures Lookup(GetCommands(), name).None?
  {
    KeysOfEntries();
    var t := GetCommands();
    forall k | 0 <= k < 53
      ensures Names(t)[k] != name
    {
      assert IndexOfKey(NameKey(t[k].name)) == k;
    }
  }

  /** The names at the positions the quirks are about. */
  lemma QuirkNames()
    ensures GetCommands()[0].name == "additem" && GetCommands()[2].name == "addmkey"
    ensures GetCommands()[51].name == "auras  " && GetCommands()[52].name == "light  "
  {
  }

  /** The quirks of the table: two names end in two spaces, so the plain
      words "auras" and "light" find nothing... */
  lemma PlainWordsNotFound()
    ensures Lookup(GetCommands(), "auras").None? && Lookup(GetCommands(), "light").None?
  {
    NotANameOfTable("auras");
    NotANameOfTable("light");
  }

  /** ... while the padded names find the auras and light entries. */
  lemma PaddedAurasFound()
    ensures Lookup(GetCommands(), "auras  ") == Some(GetCommands()[51])
  {
    QuirkNames();
    LookupByName(51, "auras  ");
  }

  lemma PaddedLightFound()
    ensures Lookup(GetCommands(), "light  ") == Some(GetCommands()[52])
  {
    QuirkNames();
    LookupByName(52, "light  ");
  }

  /** addmkey is found by its own name, and it is gated by the permission
      of additem. */
  lemma AddMKeyUsesAddItemPermission()
    ensures Lookup(GetCommands(), "addmkey") == Some(GetCommands()[2])
    ensures Lookup(GetCommands(), "additem") == Some(GetCommands()[0])
    ensures GetCommands()[2].permission == GetCommands()[0].permission == PermAdditem
  {
    LookupByName(2, "addmkey");
  }

  /** light has a handler of its own but is gated by the list-auras
      permission of auras. */
  lemma LightUsesListAurasPermission()
    ensures GetCommands()[51].handler == HandleAurasCommand
    ensures GetCommands()[52].handler == HandleLightCommand
    ensures GetCommands()[52].permission == GetCommands()[51].permission == PermListAuras
  {
  }
}
