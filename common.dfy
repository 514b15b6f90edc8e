/** The shared definitions of src/common/Common.h that the command code
    uses: the time constants, the ordered account security levels and the
    decimal text-to-number helpers `atoul` and `atoull`. */
module Common {
  import opened Types
  import CStdlib

  // TimeConstants, in seconds (IN_MILLISECONDS converts seconds to ms).
  const MINUTE: nat := 60
  const HOUR: nat := MINUTE * 60
  const DAY: nat := HOUR * 24
  const WEEK: nat := DAY * 7
  const MONTH: nat := DAY * 30
  const YEAR: nat := MONTH * 12
  const IN_MILLISECONDS: nat := 1000

  /** AccountTypes: the security levels, lowest privilege first. The
      console level is last and above every level an account can hold. */
  datatype AccountType = SecPlayer | SecModerator | SecGamemaster | SecAdministrator | SecConsole
  {
    /** The numeric value of the enumerator. */
    function Level(): (n: nat)
      ensures n <= 4
      ensures n == 4 <==> this == SecConsole
    {
      match this
      case SecPlayer => 0
      case SecModerator => 1
      case SecGamemaster => 2
      case SecAdministrator => 3
      case SecConsole => 4
    }
  }

  /** The enumerator with value `n`, as `AccountTypes(n)` reads it. */
  function AccountTypeOf(n: nat): (r: Option<AccountType>)
    ensures r.Some? <==> n <= 4
    ensures r.Some? ==> r.value.Level() == n
  {
    if n == 0 then Some(SecPlayer)
    else if n == 1 then Some(SecModerator)
    else if n == 2 then Some(SecGamemaster)
    else if n == 3 then Some(SecAdministrator)
    else if n == 4 then Some(SecConsole)
    else None
  }

  /** The levels are strictly ordered PLAYER < MODERATOR < GAMEMASTER <
      ADMINISTRATOR < CONSOLE, and each level is the value of exactly one
      enumerator. */
  lemma AccountLevelsOrdered(a: AccountType, b: AccountType)
    ensures SecPlayer.Level() < SecModerator.Level() < SecGamemaster.Level()
              < SecAdministrator.Level() < SecConsole.Level()
    ensures a.Level() == b.Level() <==> a == b
    ensures AccountTypeOf(a.Level()) == Some(a)
  {
  }

  /** The console level is above every account level. */
  lemma ConsoleIsHighest(a: AccountType)
    ensures a != SecConsole ==> a.Level() < SecConsole.Level()
  {
  }

  /** `unsigned long` and `unsigned long long` are both 64 bits wide on the
      LP64 platforms the server is built for. */
  const ULONG_MAX: nat := TWO_64 - 1
  const ULLONG_MAX: nat := TWO_64 - 1

  /** atoul: `strtoul(str, nullptr, 10)`. */
  function Atoul(s: string): (r: uint64)
  {
    CStdlib.StrToUnsigned(s, ULONG_MAX)
  }

  /** atoull: `strtoull(str, nullptr, 10)`. */
  function Atoull(s: string): (r: uint64)
  {
    CStdlib.StrToUnsigned(s, ULLONG_MAX)
  }

  /** Both helpers read back what `ToDecimal` prints, for every value of the
      return type; both read text that does not start with a digit, a sign
      or white space as 0. */
  lemma AtoulDecimal(n: nat, junk: string)
    requires n <= ULONG_MAX
    requires junk == [] || !(CStdlib.IsSpace(junk[0]) || CStdlib.IsDigit(junk[0]) || junk[0] == '+' || junk[0] == '-')
    ensures Atoul(CStdlib.ToDecimal(n)) == n && Atoull(CStdlib.ToDecimal(n)) == n
    ensures Atoul(CStdlib.ToDecimal(n) + junk) == n
    ensures Atoul(junk) == 0 && Atoull(junk) == 0
  {
    CStdlib.StrToUnsignedRoundTrip(n, ULONG_MAX);
    CStdlib.StrToUnsignedStopsAtNonDigit(CStdlib.ToDecimal(n), junk, ULONG_MAX);
    CStdlib.NoDigitsConvertToZero(junk, ULONG_MAX, 1);
  }
}
