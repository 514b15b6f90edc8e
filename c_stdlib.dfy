/** The C library routines the command code relies on to turn text into
    numbers and to compare text: `strtoul`/`strtol` with base 10 as ISO C11
    section 7.22.1.4 specifies them, `atoi` as glibc defines it (the `int`
    conversion of `strtol`), and `strncmp` on NUL-terminated strings.
    A Dafny string stands for the characters of a C string before its
    terminating NUL. */
module CStdlib {
  import opened Types

  const NUL: char := '\0'

  /** White space in the "C" locale, as `isspace` classifies it. */
  predicate IsSpace(c: char) {
    c == ' ' || c == '\t' || c == '\n' || c == '\U{B}' || c == '\U{C}' || c == '\r'
  }

  predicate IsDigit(c: char) {
    '0' <= c <= '9'
  }

  function DigitValue(c: char): (d: nat)
    requires IsDigit(c)
    ensures d < 10
  {
    c as int - '0' as int
  }

  function DigitChar(d: nat): (c: char)
    requires d < 10
    ensures IsDigit(c) && DigitValue(c) == d
  {
    ('0' as int + d) as char
  }

  predicate AllDigits(s: string) {
    forall i :: 0 <= i < |s| ==> IsDigit(s[i])
  }

  function Pow10(k: nat): (p: nat)
    ensures p >= 1
  {
    if k == 0 then 1 else 10 * Pow10(k - 1)
  }

  /** The value of a string of decimal digits, most significant first. */
  function DigitsValue(ds: string): (v: nat)
    requires AllDigits(ds)
    ensures v < Pow10(|ds|)
  {
    if ds == [] then 0
    else
      var init := ds[..|ds| - 1];
      var v0 := DigitsValue(init);
      assert v0 <= Pow10(|init|) - 1;
      assert v0 * 10 <= Pow10(|init|) * 10 - 10;
      v0 * 10 + DigitValue(ds[|ds| - 1])
  }

  /** The length of the run of digits that starts `s`. */
  function DigitRun(s: string): (n: nat)
    ensures n <= |s|
    ensures AllDigits(s[..n])
    ensures n < |s| ==> !IsDigit(s[n])
  {
    if s == [] || !IsDigit(s[0]) then 0 else 1 + DigitRun(s[1..])
  }

  /** `s` with its leading white space removed. */
  function SkipSpaces(s: string): (r: string)
    ensures |r| <= |s| && r == s[|s| - |r|..]
    ensures r != [] ==> !IsSpace(r[0])
    ensures forall i :: 0 <= i < |s| - |r| ==> IsSpace(s[i])
  {
    if s != [] && IsSpace(s[0]) then SkipSpaces(s[1..]) else s
  }

  /** The subject sequence of a base-10 conversion: an optional sign and a
      non-empty run of digits, after leading white space. */
  datatype Subject = Subject(negative: bool, digits: string)

  /** The subject sequence of `s`, or None when it has no digits there
      (then "no conversion is performed"). */
  function Scan(s: string): (r: Option<Subject>)
    ensures r.Some? ==> r.value.digits != [] && AllDigits(r.value.digits)
  {
    var t := SkipSpaces(s);
    var signed := t != [] && (t[0] == '+' || t[0] == '-');
    var u := if signed then t[1..] else t;
    var n := DigitRun(u);
    if n == 0 then None else Some(Subject(signed && t[0] == '-', u[..n]))
  }

  /** `strtoul`/`strtoull` with base 10 for a return type whose largest
      value is `max`: a negative subject is negated in the return type, an
      out-of-range magnitude gives `max`, no digits give 0. */
  function StrToUnsigned(s: string, max: nat): (r: nat)
    ensures r <= max
  {
    match Scan(s)
    case None => 0
    case Some(sub) =>
      var v := DigitsValue(sub.digits);
      if v > max then max
      else if sub.negative then (if v == 0 then 0 else max + 1 - v)
      else v
  }

  /** `strtol`/`strtoll` with base 10 for a return type of range
      [`-lim`, `lim` - 1]: out-of-range values are clamped. */
  function StrToSigned(s: string, lim: int): (r: int)
    requires lim > 0
    ensures -lim <= r < lim
  {
    match Scan(s)
    case None => 0
    case Some(sub) =>
      var v := DigitsValue(sub.digits);
      if sub.negative then (if v > lim then -lim else -(v as int))
      else (if v >= lim then lim - 1 else v)
  }

  /** `long` is 64 bits wide on the LP64 platforms the server is built for. */
  function StrToL(s: string): (r: int64)
  {
    StrToSigned(s, TWO_63)
  }

  /** glibc's `atoi`: `(int) strtol(s, NULL, 10)`. */
  function Atoi(s: string): (r: int32)
  {
    ToInt32(StrToL(s))
  }

  /** The canonical decimal text of `n`: the inverse of the conversions. */
  function ToDecimal(n: nat): (s: string)
    ensures s != [] && AllDigits(s)
    ensures DigitsValue(s) == n
    ensures |s| > 1 ==> s[0] != '0'
  {
    if n < 10 then [DigitChar(n)]
    else
      var s := ToDecimal(n / 10) + [DigitChar(n % 10)];
      assert s[..|s| - 1] == ToDecimal(n / 10);
      s
  }

  lemma {:induction false} DigitRunOfDigits(ds: string, rest: string)
    requires AllDigits(ds)
    requires rest == [] || !IsDigit(rest[0])
    ensures DigitRun(ds + rest) == |ds|
  {
    if ds != [] {
      assert (ds + rest)[1..] == ds[1..] + rest;
      DigitRunOfDigits(ds[1..], rest);
    } else {
      assert ds + rest == rest;
    }
  }

  /** Text that starts with a digit has no white space or sign before its
      subject sequence. */
  lemma ScanOfDigitFirst(s: string)
    requires s != [] && IsDigit(s[0])
    ensures Scan(s) == Some(Subject(false, s[..DigitRun(s)]))
  {
    assert !IsSpace(s[0]) && s[0] != '+' && s[0] != '-';
    assert SkipSpaces(s) == s;
    assert DigitRun(s) == 1 + DigitRun(s[1..]);
  }

  /** The subject sequence of text that starts with digits. */
  lemma ScanOfDigits(ds: string, rest: string)
    requires ds != [] && AllDigits(ds)
    requires rest == [] || !IsDigit(rest[0])
    ensures Scan(ds + rest) == Some(Subject(false, ds))
  {
    var s := ds + rest;
    assert s[0] == ds[0];
    ScanOfDigitFirst(s);
    DigitRunOfDigits(ds, rest);
    assert s[..|ds|] == ds;
  }

  /** An all-digit string whose value fits converts to that value. */
  lemma StrToUnsignedOfDigits(ds: string, max: nat)
    requires ds != [] && AllDigits(ds)
    requires DigitsValue(ds) <= max
    ensures StrToUnsigned(ds, max) == DigitsValue(ds)
  {
    ScanOfDigits(ds, []);
    assert ds + [] == ds;
  }

  /** The conversion stops at the first character that is not a digit. */
  lemma StrToUnsignedStopsAtNonDigit(ds: string, rest: string, max: nat)
    requires ds != [] && AllDigits(ds)
    requires rest == [] || !IsDigit(rest[0])
    ensures StrToUnsigned(ds + rest, max) == StrToUnsigned(ds, max)
  {
    ScanOfDigits(ds, rest);
    ScanOfDigits(ds, []);
    assert ds + [] == ds;
  }

  /** Text that does not start with white space, a sign or a digit converts
      to 0. */
  lemma NoDigitsConvertToZero(s: string, max: nat, lim: int)
    requires s == [] || !(IsSpace(s[0]) || IsDigit(s[0]) || s[0] == '+' || s[0] == '-')
    requires lim > 0
    ensures StrToUnsigned(s, max) == 0 && StrToSigned(s, lim) == 0
  {
    assert SkipSpaces(s) == s;
  }

  /** A magnitude beyond the return type saturates at its largest value. */
  lemma StrToUnsignedSaturates(ds: string, max: nat)
    requires ds != [] && AllDigits(ds)
    requires DigitsValue(ds) > max
    ensures StrToUnsigned(ds, max) == max
  {
    ScanOfDigits(ds, []);
    assert ds + [] == ds;
  }

  /** Printing a number in decimal and converting it back gives the number. */
  lemma StrToUnsignedRoundTrip(n: nat, max: nat)
    requires n <= max
    ensures StrToUnsigned(ToDecimal(n), max) == n
  {
    StrToUnsignedOfDigits(ToDecimal(n), max);
  }

  /** The subject sequence of a minus sign followed by digits. */
  lemma ScanOfNegated(ds: string)
    requires ds != [] && AllDigits(ds)
    ensures Scan("-" + ds) == Some(Subject(true, ds))
  {
    var s := "-" + ds;
    assert SkipSpaces(s) == s;
    assert s[1..] == ds + [];
    DigitRunOfDigits(ds, []);
    assert ds[..|ds|] == ds;
  }

  /** A leading minus sign is applied in the unsigned return type. */
  lemma StrToUnsignedNegated(n: nat, max: nat)
    requires 0 < n <= max
    ensures StrToUnsigned("-" + ToDecimal(n), max) == max + 1 - n
  {
    ScanOfNegated(ToDecimal(n));
  }

  /** `atoi` of a decimal number that fits in `int` is that number, with
      its sign. */
  lemma AtoiRoundTrip(n: int)
    requires -TWO_31 <= n < TWO_31
    ensures Atoi(if n < 0 then "-" + ToDecimal(-n) else ToDecimal(n)) == n
  {
    if n < 0 {
      ScanOfNegated(ToDecimal(-n));
    } else {
      ScanOfDigits(ToDecimal(n), []);
      assert ToDecimal(n) + [] == ToDecimal(n);
    }
  }

  /** `atoi` of a non-negative decimal number below 2^31. */
  lemma AtoiOfDecimal(n: nat)
    requires n < TWO_31
    ensures Atoi(ToDecimal(n)) == n
  {
    AtoiRoundTrip(n);
  }

  /** `atoi` of a negative decimal number down to -2^31. */
  lemma AtoiOfNegatedDecimal(n: nat)
    requires 0 < n <= TWO_31
    ensures Atoi("-" + ToDecimal(n)) == -(n as int)
  {
    AtoiRoundTrip(-(n as int));
  }

  /** The character at position `i` of a C string: NUL past its end. */
  function CharAt(s: string, i: nat): char {
    if i < |s| then s[i] else NUL
  }

  /** `strncmp(a, b, n) == 0`: the first `n` characters agree, a NUL in
      both ending the comparison early. */
  predicate StrNEqual(a: string, b: string, n: nat)
    decreases n
  {
    n == 0 ||
    (CharAt(a, 0) == CharAt(b, 0) &&
     (CharAt(a, 0) == NUL || StrNEqual(a[1..], b[1..], n - 1)))
  }

  /** Comparing as many characters as `a` has succeeds exactly when `a` is a
      prefix of `b`. */
  lemma {:induction false} StrNEqualIsPrefix(a: string, b: string)
    requires NUL !in a && NUL !in b
    ensures StrNEqual(a, b, |a|) <==> a <= b
  {
    if a != [] {
      if b != [] && a[0] == b[0] {
        StrNEqualIsPrefix(a[1..], b[1..]);
        assert a <= b <==> a[1..] <= b[1..];
      } else if b == [] {
        assert a[0] != NUL;
      }
    }
  }

  /** Comparing one character past the end of `b` (its NUL included)
      succeeds exactly when the strings are equal. */
  lemma {:induction false} StrNEqualIsEqual(a: string, b: string)
    requires NUL !in a && NUL !in b
    ensures StrNEqual(a, b, |b| + 1) <==> a == b
  {
    if b == [] {
      if a != [] {
        assert a[0] != NUL;
      }
    } else if a != [] && a[0] == b[0] {
      StrNEqualIsEqual(a[1..], b[1..]);
      assert a == b <==> a[1..] == b[1..];
    } else if a == [] {
      assert b[0] != NUL;
    }
  }

  /** The length of the word that starts `s`: the run of characters up to
      the first space. */
  function WordLength(s: string): (n: nat)
    ensures n <= |s|
    ensures ' ' !in s[..n]
    ensures n < |s| ==> s[n] == ' '
    ensures s != [] && s[0] != ' ' ==> n > 0
  {
    if s == [] || s[0] == ' ' then 0 else 1 + WordLength(s[1..])
  }

  /** The tokens that successive `strtok(…, " ")` calls return on `s`: the
      maximal runs of characters other than a space, in order. */
  function Tokens(s: string): (ts: seq<string>)
    ensures forall i :: 0 <= i < |ts| ==> ts[i] != [] && ' ' !in ts[i]
    ensures forall i, c :: 0 <= i < |ts| && c in ts[i] ==> c in s
    decreases |s|
  {
    if s == [] then []
    else if s[0] == ' ' then
      assert forall c :: c in s[1..] ==> c in s;
      Tokens(s[1..])
    else
      var n := WordLength(s);
      assert forall c :: c in s[..n] ==> c in s;
      assert forall c :: c in s[n..] ==> c in s;
      [s[..n]] + Tokens(s[n..])
  }

  /** The `i`-th token (from 0), or None when `strtok` returns NULL. */
  function Token(s: string, i: nat): (r: Option<string>)
    ensures r.Some? <==> i < |Tokens(s)|
    ensures r.Some? ==> r.value == Tokens(s)[i]
  {
    if i < |Tokens(s)| then Some(Tokens(s)[i]) else None
  }

  /** Words written with one space between them. */
  function JoinWords(ws: seq<string>): string
  {
    if ws == [] then [] else if |ws| == 1 then ws[0] else ws[0] + " " + JoinWords(ws[1..])
  }

  lemma {:induction false} WordLengthOfWord(w: string, rest: string)
    requires ' ' !in w
    requires rest == [] || rest[0] == ' '
    ensures WordLength(w + rest) == |w|
  {
    if w != [] {
      assert (w + rest)[1..] == w[1..] + rest;
      WordLengthOfWord(w[1..], rest);
    } else {
      assert w + rest == rest;
    }
  }

  /** Splitting words written with single spaces gives the words back. */
  lemma {:induction false} TokensOfJoinedWords(ws: seq<string>)
    requires forall i :: 0 <= i < |ws| ==> ws[i] != [] && ' ' !in ws[i]
    ensures Tokens(JoinWords(ws)) == ws
  {
    if |ws| == 1 {
      WordLengthOfWord(ws[0], []);
      assert ws[0] + [] == ws[0];
      assert ws[0][|ws[0]|..] == [];
    } else if |ws| > 1 {
      var rest := JoinWords(ws[1..]);
      var s := ws[0] + " " + rest;
      WordLengthOfWord(ws[0], " " + rest);
      assert s == ws[0] + (" " + rest);
      assert s[..|ws[0]|] == ws[0];
      assert s[|ws[0]|..] == " " + rest;
      assert (" " + rest)[1..] == rest;
      TokensOfJoinedWords(ws[1..]);
      assert ws == [ws[0]] + ws[1..];
    }
  }

  // ----- strtok on a buffer -----

  /** The first position at or after `i` that does not hold a space. */
  function SkipDelims(buf: string, i: nat): (j: nat)
    requires i <= |buf|
    ensures i <= j <= |buf|
    ensures forall k :: i <= k < j ==> buf[k] == ' '
    ensures j < |buf| ==> buf[j] != ' '
    decreases |buf| - i
  {
    if i < |buf| && buf[i] == ' ' then SkipDelims(buf, i + 1) else i
  }

  /** The first position at or after `i` that holds a space or a NUL. */
  function TokenEnd(buf: string, i: nat): (j: nat)
    requires i <= |buf|
    ensures i <= j <= |buf|
    ensures forall k :: i <= k < j ==> buf[k] != ' ' && buf[k] != NUL
    ensures j < |buf| ==> buf[j] == ' ' || buf[j] == NUL
    decreases |buf| - i
  {
    if i < |buf| && buf[i] != ' ' && buf[i] != NUL then TokenEnd(buf, i + 1) else i
  }

  /** What one `strtok` call returns and leaves behind: the token (None for
      NULL), the buffer after the call and the saved position the next
      `strtok(NULL, …)` call starts from. */
  datatype StrTokStep = StrTokStep(token: Option<string>, buf: string, save: nat)

  /** One call of glibc's `strtok(…, " ")` that starts scanning `buf` at
      `from` (0 for a call with the buffer, the saved position for a call
      with NULL). `buf` holds the characters before the terminating NUL; a
      NUL inside it was written by an earlier call. The call skips spaces;
      at the end of the string it returns NULL and saves that position;
      otherwise the token runs to the next space or NUL, a space after it
      is overwritten with NUL, and the position after that is saved. */
  function StrTok(buf: string, from: nat): (r: StrTokStep)
    requires from <= |buf|
    ensures |r.buf| == |buf| && r.save <= |buf|
  {
    var i := SkipDelims(buf, from);
    if i == |buf| || buf[i] == NUL then StrTokStep(None, buf, i)
    else
      var j := TokenEnd(buf, i);
      if j == |buf| || buf[j] == NUL then StrTokStep(Some(buf[i..j]), buf, j)
      else StrTokStep(Some(buf[i..j]), buf[j := NUL], j + 1)
  }

  /** The tokens of `k` successive calls that continue from `save`. */
  function StrTokCalls(buf: string, save: nat, k: nat): (ts: seq<Option<string>>)
    requires save <= |buf|
    ensures |ts| == k
    decreases k
  {
    if k == 0 then []
    else
      var r := StrTok(buf, save);
      [r.token] + StrTokCalls(r.buf, r.save, k - 1)
  }

  /** Skipping spaces does not change the tokens that follow. */
  lemma {:induction false} TokensAfterSpaces(buf: string, i: nat)
    requires i <= |buf|
    ensures Tokens(buf[i..]) == Tokens(buf[SkipDelims(buf, i)..])
    decreases |buf| - i
  {
    if i < |buf| && buf[i] == ' ' {
      assert buf[i..][1..] == buf[i + 1..];
      TokensAfterSpaces(buf, i + 1);
    }
  }

  /** Without a NUL in the way, a token ends where the word ends. */
  lemma {:induction false} TokenEndIsWordEnd(buf: string, i: nat)
    requires i <= |buf| && NUL !in buf[i..]
    ensures TokenEnd(buf, i) == i + WordLength(buf[i..])
    decreases |buf| - i
  {
    if i < |buf| && buf[i] != ' ' {
      assert buf[i] in buf[i..];
      assert buf[i..][1..] == buf[i + 1..];
      assert forall c :: c in buf[i + 1..] ==> c in buf[i..];
      TokenEndIsWordEnd(buf, i + 1);
    }
  }

  /** From the start of a word, the tokens are the word up to TokenEnd and
      the tokens after it. */
  lemma TokensFromWordStart(buf: string, i: nat)
    requires i < |buf| && buf[i] != ' ' && NUL !in buf[i..]
    ensures Tokens(buf[i..]) == [buf[i..TokenEnd(buf, i)]] + Tokens(buf[TokenEnd(buf, i)..])
  {
    var s := buf[i..];
    var j := TokenEnd(buf, i);
    TokenEndIsWordEnd(buf, i);
    assert s[..j - i] == buf[i..j];
    assert s[j - i..] == buf[j..];
  }

  lemma NoNulInSuffix(buf: string, p: nat, q: nat)
    requires p <= q <= |buf| && NUL !in buf[p..]
    ensures NUL !in buf[q..]
  {
    assert buf[q..] == buf[p..][q - p..];
  }

  /** One call on a buffer with no NUL from `p` on returns the first token
      of the text from `p`, and leaves a NUL-free rest whose tokens are the
      remaining ones. */
  lemma StrTokAdvances(buf: string, p: nat)
    requires p <= |buf| && NUL !in buf[p..]
    ensures var r := StrTok(buf, p);
            && r.token == Token(buf[p..], 0)
            && NUL !in r.buf[r.save..]
            && Tokens(r.buf[r.save..]) == (if r.token.None? then [] else Tokens(buf[p..])[1..])
  {
    var i := SkipDelims(buf, p);
    TokensAfterSpaces(buf, p);
    NoNulInSuffix(buf, p, i);
    if i == |buf| {
      assert StrTok(buf, p) == StrTokStep(None, buf, i);
      assert buf[i..] == [];
    } else {
      assert buf[i] in buf[i..];
      SkipDelimsStopsAt(buf, i, i);
      assert StrTok(buf, p) == StrTok(buf, i);
      StrTokOfWord(buf, i);
      var w := buf[i..TokenEnd(buf, i)];
      assert Tokens(buf[p..]) == [w] + Tokens(StrTok(buf, i).buf[StrTok(buf, i).save..]);
    }
  }

  /** The call that finds a word at `i` (see StrTokAdvances). */
  lemma StrTokOfWord(buf: string, i: nat)
    requires i < |buf| && buf[i] != ' ' && NUL !in buf[i..]
    ensures var r := StrTok(buf, i);
            && r.token == Some(buf[i..TokenEnd(buf, i)])
            && Tokens(buf[i..]) == [buf[i..TokenEnd(buf, i)]] + Tokens(r.buf[r.save..])
            && NUL !in r.buf[r.save..]
  {
    var j := TokenEnd(buf, i);
    TokensFromWordStart(buf, i);
    if j < |buf| {
      StrTokOfSpacedWord(buf, i);
      WordFollowedBySpace(buf, i, j);
      var r := StrTok(buf, i);
      assert r.buf[r.save..] == buf[j + 1..];
    } else {
      StrTokOfLastWord(buf, i);
      assert buf[j..] == [];
    }
  }

  /** A word that runs to the end: the buffer is left as it is and the end
      is saved. */
  lemma StrTokOfLastWord(buf: string, i: nat)
    requires i < |buf| && buf[i] != ' ' && NUL !in buf[i..]
    requires TokenEnd(buf, i) == |buf|
    ensures StrTok(buf, i) == StrTokStep(Some(buf[i..]), buf, |buf|)
  {
    SkipDelimsStopsAt(buf, i, i);
    assert buf[i] == buf[i..][0];
    assert buf[i..|buf|] == buf[i..];
  }

  /** A word followed by a space: the space becomes a NUL and the position
      after it is saved. */
  lemma StrTokOfSpacedWord(buf: string, i: nat)
    requires i < |buf| && buf[i] != ' ' && NUL !in buf[i..]
    requires TokenEnd(buf, i) < |buf|
    ensures var j := TokenEnd(buf, i);
            && buf[j] == ' '
            && StrTok(buf, i) == StrTokStep(Some(buf[i..j]), buf[j := NUL], j + 1)
  {
    var j := TokenEnd(buf, i);
    SkipDelimsStopsAt(buf, i, i);
    assert buf[j] == buf[i..][j - i] && buf[i..][j - i] in buf[i..];
  }

  /** After a word that ends in a space at `j`, the tokens that follow are
      those of the text after the space, which the NUL written at `j` does
      not touch. */
  lemma WordFollowedBySpace(buf: string, i: nat, j: nat)
    requires i <= j < |buf| && buf[j] == ' ' && NUL !in buf[i..]
    ensures buf[j := NUL][j + 1..] == buf[j + 1..]
    ensures Tokens(buf[j..]) == Tokens(buf[j + 1..])
    ensures NUL !in buf[j + 1..]
  {
    assert buf[j..][1..] == buf[j + 1..];
    assert buf[j := NUL][j + 1..] == buf[j + 1..];
    NoNulInSuffix(buf, i, j + 1);
  }

  /** Successive calls, the first with the buffer and the others with
      NULL, return the tokens of the text in order, then NULL. */
  lemma {:induction false} StrTokCallsAreTokens(buf: string, p: nat, k: nat)
    requires p <= |buf| && NUL !in buf[p..]
    ensures forall n :: 0 <= n < k ==> StrTokCalls(buf, p, k)[n] == Token(buf[p..], n)
    decreases k
  {
    if k > 0 {
      var r := StrTok(buf, p);
      var calls := StrTokCalls(r.buf, r.save, k - 1);
      assert StrTokCalls(buf, p, k) == [r.token] + calls;
      StrTokAdvances(buf, p);
      StrTokCallsAreTokens(r.buf, r.save, k - 1);
      forall n | 0 < n < k
        ensures StrTokCalls(buf, p, k)[n] == Token(buf[p..], n)
      {
        assert StrTokCalls(buf, p, k)[n] == calls[n - 1] == Token(r.buf[r.save..], n - 1);
        TokenOfRest(buf[p..], r.buf[r.save..], n - 1);
      }
    }
  }

  /** When the tokens of `t` are those of `s` after its first, the `n`-th
      token of `t` is the next one of `s`. */
  lemma TokenOfRest(s: string, t: string, n: nat)
    requires Tokens(t) == (if Tokens(s) == [] then [] else Tokens(s)[1..])
    ensures Token(t, n) == Token(s, n + 1)
  {
  }

  /** SkipDelims stops at the first position from `i` on that is not a
      space: it depends only on the characters up to there. */
  lemma {:induction false} SkipDelimsStopsAt(buf: string, i: nat, j: nat)
    requires i <= j <= |buf|
    requires forall k :: i <= k < j ==> buf[k] == ' '
    requires j < |buf| ==> buf[j] != ' '
    ensures SkipDelims(buf, i) == j
    decreases j - i
  {
    if i < j {
      SkipDelimsStopsAt(buf, i + 1, j);
    }
  }

  /** TokenEnd stops at the first space or NUL from `i` on. */
  lemma {:induction false} TokenEndStopsAt(buf: string, i: nat, j: nat)
    requires i <= j <= |buf|
    requires forall k :: i <= k < j ==> buf[k] != ' ' && buf[k] != NUL
    requires j < |buf| ==> buf[j] == ' ' || buf[j] == NUL
    ensures TokenEnd(buf, i) == j
    decreases j - i
  {
    if i < j {
      TokenEndStopsAt(buf, i + 1, j);
    }
  }

  /** Calling `strtok` with the buffer again after a first call returned a
      token returns the same token and saves the position of the NUL after
      it, so that the next call with NULL returns NULL, whatever words
      followed in the original text. */
  lemma StrTokRestart(s: string)
    requires NUL !in s
    ensures var r1 := StrTok(s, 0);
            var r2 := StrTok(r1.buf, 0);
            r1.token.Some? ==> r2.token == r1.token && StrTok(r2.buf, r2.save).token.None?
  {
    var r1 := StrTok(s, 0);
    if r1.token.Some? {
      var i := SkipDelims(s, 0);
      var j := TokenEnd(s, i);
      assert i < |s| && s[i] != NUL;
      var b := r1.buf;
      assert forall k :: 0 <= k < j ==> b[k] == s[k];
      SkipDelimsStopsAt(b, 0, i);
      assert j == |b| || b[j] == NUL;
      TokenEndStopsAt(b, i, j);
      var r2 := StrTok(b, 0);
      assert r2 == StrTokStep(Some(b[i..j]), b, j);
      assert b[i..j] == s[i..j];
      SkipDelimsStopsAt(b, j, j);
    }
  }
}
