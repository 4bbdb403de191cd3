/** Relative cooldown durations: the parser, the printer, and their round trip.
    Durations are whole seconds. */
module Cooldown {
  import opened Options

  // --------------------------------------------------------------- numerals

  predicate IsDigit(c: char) {
    '0' <= c <= '9'
  }

  predicate AllDigits(s: string) {
    forall i | 0 <= i < |s| :: IsDigit(s[i])
  }

  function DigitOf(n: nat): char
    requires n < 10
  {
    '0' + n as char
  }

  function Decimal(n: nat): string {
    if n < 10 then [DigitOf(n)] else Decimal(n / 10) + [DigitOf(n % 10)]
  }

  function Value(s: string): nat
    requires AllDigits(s)
  {
    if s == [] then 0 else Value(s[..|s| - 1]) * 10 + (s[|s| - 1] as int - '0' as int)
  }

  /** Printing and reading a number are inverse. */
  lemma {:induction false} NumeralRoundTrip(n: nat)
    ensures AllDigits(Decimal(n)) && Decimal(n) != [] && Value(Decimal(n)) == n
  {
    if n >= 10 {
      NumeralRoundTrip(n / 10);
      assert Decimal(n)[..|Decimal(n)| - 1] == Decimal(n / 10);
    }
  }

  // ----------------------------------------------------------------- parser

  const MINUTE := 60
  const HOUR := 3600
  const DAY := 86400

  predicate IsUnit(c: char) {
    c == 'd' || c == 'h' || c == 'm'
  }

  function UnitSeconds(c: char): nat
    requires IsUnit(c)
  {
    if c == 'd' then DAY else if c == 'h' then HOUR else MINUTE
  }

  function Seconds(amount: nat, unit: char): nat
    requires IsUnit(unit)
  {
    if unit == 'd' then amount * DAY else if unit == 'h' then amount * HOUR else amount * MINUTE
  }

  /** Where the run of digits starting at `i` ends. */
  function DigitsEnd(s: string, i: nat): (n: nat)
    requires i <= |s|
    ensures i <= n <= |s| && (forall k | i <= k < n :: IsDigit(s[k])) && (n < |s| ==> !IsDigit(s[n]))
    decreases |s| - i
  {
    if i == |s| || !IsDigit(s[i]) then i else DigitsEnd(s, i + 1)
  }

  /** Does an amount-unit token start at `i`? */
  predicate TokenAt(text: string, i: nat)
    requires i <= |text|
  {
    var n := DigitsEnd(text, i);
    i < n < |text| && IsUnit(text[n])
  }

  function TokenSeconds(text: string, i: nat): nat
    requires i <= |text| && TokenAt(text, i)
  {
    var n := DigitsEnd(text, i);
    Seconds(Value(text[i..n]), text[n])
  }

  /** The total of a text that from `i` on is nothing but tokens. */
  function Total(text: string, i: nat): Option<nat>
    requires i <= |text|
    decreases |text| - i
  {
    if i == |text| then Some(0)
    else if !TokenAt(text, i) then None
    else match Total(text, DigitsEnd(text, i) + 1)
      case None => None
      case Some(rest) => Some(TokenSeconds(text, i) + rest)
  }

  /** A relative duration: a sign, then at least one token, with a positive total. */
  function Relative(value: string): Option<nat>
    requires value != []
  {
    if |value| == 1 then None
    else match Total(value[1..], 0)
      case None => None
      case Some(total) => if total > 0 then Some(total) else None
  }

  function After(sum: nat, text: string, i: nat): Option<nat>
    requires i <= |text|
  {
    match Total(text, i)
    case None => None
    case Some(rest) => Some(sum + rest)
  }

  lemma TokenStep(sum: nat, text: string, i: nat)
    requires i < |text|
    ensures !TokenAt(text, i) ==> After(sum, text, i) == None
    ensures TokenAt(text, i) ==>
              After(sum, text, i) == After(sum + TokenSeconds(text, i), text, DigitsEnd(text, i) + 1)
  {
  }

  /** The token loop with its day, hour and minute counters. */
  method ParseRelativeDuration(value: string) returns (seconds: Option<nat>)
    requires value != []
    ensures seconds == Relative(value)
  {
    var text := value[1..];
    if text == [] { return None; }
    var position: nat, days: nat, hours: nat, minutes: nat := 0, 0, 0, 0;
    while position < |text|
      invariant position <= |text|
      invariant After(0, text, 0) == After(days * DAY + hours * HOUR + minutes * MINUTE, text, position)
    {
      TokenStep(days * DAY + hours * HOUR + minutes * MINUTE, text, position);
      if !TokenAt(text, position) { return None; }
      var n := DigitsEnd(text, position);
      var amount, unit := Value(text[position..n]), text[n];
      if unit == 'd' { days := days + amount; }
      else if unit == 'h' { hours := hours + amount; }
      else { minutes := minutes + amount; }
      position := n + 1;
    }
    var duration := days * DAY + hours * HOUR + minutes * MINUTE;
    if duration <= 0 { return None; }
    return Some(duration);
  }

  // ---------------------------------------------------------------- printer

  datatype Part = Part(amount: nat, unit: char)

  function Printed(p: Part): string {
    Decimal(p.amount) + [p.unit]
  }

  function Spaced(parts: seq<Part>): string {
    if parts == [] then [] else
    if |parts| == 1 then Printed(parts[0]) else Printed(parts[0]) + " " + Spaced(parts[1..])
  }

  function Clamped(seconds: int): nat {
    if seconds < 0 then 0 else seconds
  }

  /** Days, hours and minutes that are not zero, or zero minutes. */
  function PartsOf(days: nat, hours: nat, minutes: nat): seq<Part> {
    (if days > 0 then [Part(days, 'd')] else [])
    + (if hours > 0 then [Part(hours, 'h')] else [])
    + (if minutes > 0 || (days == 0 && hours == 0) then [Part(minutes, 'm')] else [])
  }

  function Parts(seconds: int): seq<Part> {
    var s := Clamped(seconds);
    PartsOf(s / DAY, s % DAY / HOUR, s % DAY % HOUR / MINUTE)
  }

  method FormatDuration(seconds: int) returns (text: string)
    ensures text == Spaced(Parts(seconds))
  {
    var s := Clamped(seconds);
    var days, remainder := s / DAY, s % DAY;
    var hours := remainder / HOUR;
    remainder := remainder % HOUR;
    var minutes := remainder / MINUTE;
    var parts: seq<Part> := [];
    if days > 0 { parts := parts + [Part(days, 'd')]; }
    if hours > 0 { parts := parts + [Part(hours, 'h')]; }
    if minutes > 0 || parts == [] { parts := parts + [Part(minutes, 'm')]; }
    assert parts == PartsOf(days, hours, minutes);
    text := Spaced(parts);
  }

  lemma PartsTotalCons(p: Part, rest: seq<Part>)
    requires IsUnit(p.unit) && forall q | q in rest :: IsUnit(q.unit)
    ensures PartsTotal([p] + rest) == Seconds(p.amount, p.unit) + PartsTotal(rest)
  {
    assert ([p] + rest)[1..] == rest;
  }

  lemma PartsAddUp(days: nat, hours: nat, minutes: nat)
    ensures forall p | p in PartsOf(days, hours, minutes) :: IsUnit(p.unit)
    ensures PartsTotal(PartsOf(days, hours, minutes)) == days * DAY + hours * HOUR + minutes * MINUTE
  {
    var m := if minutes > 0 || (days == 0 && hours == 0) then [Part(minutes, 'm')] else [];
    var h := if hours > 0 then [Part(hours, 'h')] else [];
    PartsTotalCons(Part(minutes, 'm'), []);
    assert [Part(minutes, 'm')] + [] == [Part(minutes, 'm')];
    PartsTotalCons(Part(hours, 'h'), m);
    PartsTotalCons(Part(days, 'd'), h + m);
    assert [] + m == m && [] + (h + m) == h + m;
    assert PartsOf(days, hours, minutes) == (if days > 0 then [Part(days, 'd')] else []) + (h + m);
  }

  /** The printed form is canonical: units in order, hours under a day, minutes under an
      hour, no zero part but a lone `0m`; the parts add up to the whole minutes. */
  lemma PartsAreCanonical(seconds: int)
    ensures var parts := Parts(seconds);
            && 1 <= |parts| <= 3
            && (forall p | p in parts :: IsUnit(p.unit) && (p.amount > 0 || parts == [Part(0, 'm')]))
            && (forall p | p in parts :: (p.unit == 'h' ==> p.amount < 24) && (p.unit == 'm' ==> p.amount < 60))
            && (forall i, j | 0 <= i < j < |parts| :: UnitSeconds(parts[i].unit) > UnitSeconds(parts[j].unit))
            && PartsTotal(parts) == Clamped(seconds) - Clamped(seconds) % 60
  {
    var s := Clamped(seconds);
    PartsAddUp(s / DAY, s % DAY / HOUR, s % DAY % HOUR / MINUTE);
    WholeMinutes(s);
  }

  lemma WholeMinutes(s: nat)
    ensures s / DAY * DAY + s % DAY / HOUR * HOUR + s % DAY % HOUR / MINUTE * MINUTE == s - s % 60
    ensures s % DAY / HOUR < 24 && s % DAY % HOUR / MINUTE < 60
  {
  }

  function PartsTotal(parts: seq<Part>): nat
    requires forall p | p in parts :: IsUnit(p.unit)
  {
    if parts == [] then 0 else Seconds(parts[0].amount, parts[0].unit) + PartsTotal(parts[1..])
  }

  // ------------------------------------------------------------- round trip

  function NoSpaces(s: string): string {
    if s == [] then []
    else if s[0] == ' ' then NoSpaces(s[1..])
    else [s[0]] + NoSpaces(s[1..])
  }

  function Packed(parts: seq<Part>): string {
    if parts == [] then [] else Printed(parts[0]) + Packed(parts[1..])
  }

  lemma {:induction false} NoSpacesConcat(a: string, b: string)
    ensures NoSpaces(a + b) == NoSpaces(a) + NoSpaces(b)
  {
    if a == [] {
      assert a + b == b;
    } else {
      NoSpacesConcat(a[1..], b);
      assert (a + b)[1..] == a[1..] + b && (a + b)[0] == a[0];
    }
  }

  lemma {:induction false} NothingToStrip(s: string)
    requires ' ' !in s
    ensures NoSpaces(s) == s
  {
    if s != [] { NothingToStrip(s[1..]); }
  }

  lemma PrintedHasNoSpaces(p: Part)
    requires IsUnit(p.unit)
    ensures NoSpaces(Printed(p)) == Printed(p)
  {
    NumeralRoundTrip(p.amount);
    NothingToStrip(Printed(p));
  }

  lemma {:induction false} SpacedStripsToPacked(parts: seq<Part>)
    requires forall p | p in parts :: IsUnit(p.unit)
    ensures NoSpaces(Spaced(parts)) == Packed(parts)
  {
    if parts != [] {
      var first := Printed(parts[0]);
      PrintedHasNoSpaces(parts[0]);
      SpacedStripsToPacked(parts[1..]);
      if |parts| > 1 {
        NoSpacesConcat(first + " ", Spaced(parts[1..]));
        NoSpacesConcat(first, " ");
        assert NoSpaces(first + " ") == first;
      } else {
        assert Packed(parts) == first + Packed(parts[1..]);
      }
    }
  }

  lemma {:induction false} DigitsEndAt(s: string, i: nat, n: nat)
    requires i <= n < |s| && !IsDigit(s[n]) && forall k | i <= k < n :: IsDigit(s[k])
    ensures DigitsEnd(s, i) == n
    decreases n - i
  {
    if i < n { DigitsEndAt(s, i + 1, n); }
  }

  /** An amount as written, leading zeros and all, with its unit. */
  datatype Token = Token(digits: string, unit: char)

  predicate WellFormedToken(t: Token) {
    && t.digits != [] && (forall k | 0 <= k < |t.digits| :: '0' <= t.digits[k] <= '9')
    && (t.unit == 'd' || t.unit == 'h' || t.unit == 'm')
  }

  predicate WellFormed(tokens: seq<Token>) {
    forall k | 0 <= k < |tokens| :: WellFormedToken(tokens[k])
  }

  /** The tokens from the `k`th on, one after the other. */
  function JoinedFrom(tokens: seq<Token>, k: nat): string
    requires k <= |tokens|
    decreases |tokens| - k
  {
    if k == |tokens| then [] else tokens[k].digits + [tokens[k].unit] + JoinedFrom(tokens, k + 1)
  }

  function Worth(t: Token): nat
    requires WellFormedToken(t)
  {
    Value(t.digits) * (if t.unit == 'd' then 24 * 60 * 60 else if t.unit == 'h' then 60 * 60 else 60)
  }

  function WorthFrom(tokens: seq<Token>, k: nat): nat
    requires k <= |tokens| && WellFormed(tokens)
    decreases |tokens| - k
  {
    if k == |tokens| then 0 else Worth(tokens[k]) + WorthFrom(tokens, k + 1)
  }

  lemma TokenIsRead(text: string, i: nat, t: Token)
    requires WellFormedToken(t) && i + |t.digits| < |text|
    requires text[i..i + |t.digits|] == t.digits && text[i + |t.digits|] == t.unit
    ensures TokenAt(text, i) && DigitsEnd(text, i) == i + |t.digits| && TokenSeconds(text, i) == Worth(t)
  {
    forall k | i <= k < i + |t.digits| ensures IsDigit(text[k]) {
      assert text[k] == text[i..i + |t.digits|][k - i];
    }
    DigitsEndAt(text, i, i + |t.digits|);
  }

  /** From `i` on the text is exactly the tokens from the `k`th on. */
  predicate Spells(text: string, i: nat, tokens: seq<Token>, k: nat)
    requires i <= |text| && k <= |tokens|
    decreases |tokens| - k
  {
    if k == |tokens| then i == |text|
    else
      var n := i + |tokens[k].digits|;
      n < |text| && text[i..n] == tokens[k].digits && text[n] == tokens[k].unit && Spells(text, n + 1, tokens, k + 1)
  }

  lemma {:induction false} SpellsJoined(text: string, i: nat, tokens: seq<Token>, k: nat)
    requires i <= |text| && k <= |tokens|
    ensures Spells(text, i, tokens, k) <==> text[i..] == JoinedFrom(tokens, k)
    decreases |tokens| - k
  {
    if k < |tokens| {
      var n := i + |tokens[k].digits|;
      var whole := tokens[k].digits + [tokens[k].unit] + JoinedFrom(tokens, k + 1);
      if n < |text| {
        SpellsJoined(text, n + 1, tokens, k + 1);
        assert text[i..] == text[i..n] + [text[n]] + text[n + 1..];
        if text[i..] == whole {
          assert text[i..n] == whole[..n - i] && text[n] == whole[n - i] && text[n + 1..] == whole[n + 1 - i..];
        }
      } else {
        assert |whole| > |text[i..]|;
      }
    }
  }

  lemma TokenLeads(text: string, i: nat, next: nat, seconds: nat, rest: nat)
    requires i < next <= |text| && TokenAt(text, i) && DigitsEnd(text, i) + 1 == next
    requires TokenSeconds(text, i) == seconds && Total(text, next) == Some(rest)
    ensures Total(text, i) == Some(seconds + rest)
  {
    TokenStep(0, text, i);
  }

  lemma TokenThenRest(text: string, i: nat, t: Token, rest: nat)
    requires WellFormedToken(t) && i + |t.digits| < |text|
    requires text[i..i + |t.digits|] == t.digits && text[i + |t.digits|] == t.unit
    requires Total(text, i + |t.digits| + 1) == Some(rest)
    ensures Total(text, i) == Some(Worth(t) + rest)
  {
    TokenIsRead(text, i, t);
    TokenLeads(text, i, i + |t.digits| + 1, Worth(t), rest);
  }

  /** Any text of well-formed tokens is read, for what the tokens are worth. */
  lemma {:induction false} TokensAreRead(text: string, i: nat, tokens: seq<Token>, k: nat)
    requires i <= |text| && k <= |tokens| && WellFormed(tokens) && Spells(text, i, tokens, k)
    ensures Total(text, i) == Some(WorthFrom(tokens, k))
    decreases |tokens| - k
  {
    if k < |tokens| {
      TokensAreRead(text, i + |tokens[k].digits| + 1, tokens, k + 1);
      TokenThenRest(text, i, tokens[k], WorthFrom(tokens, k + 1));
    }
  }

  lemma ReadToken(text: string, i: nat) returns (t: Token)
    requires i <= |text| && TokenAt(text, i)
    ensures WellFormedToken(t) && DigitsEnd(text, i) == i + |t.digits| < |text|
    ensures text[i..i + |t.digits|] == t.digits && text[i + |t.digits|] == t.unit
  {
    var n := DigitsEnd(text, i);
    t := Token(text[i..n], text[n]);
    assert forall k | 0 <= k < |t.digits| :: t.digits[k] == text[i + k];
  }

  /** And whatever is read, after tokens already known, is such a text. */
  lemma {:induction false} ReadTextsAreTokens(text: string, i: nat, known: seq<Token>) returns (tokens: seq<Token>)
    requires i <= |text| && Total(text, i).Some? && WellFormed(known)
    ensures WellFormed(tokens) && known <= tokens && Spells(text, i, tokens, |known|)
    decreases |text| - i
  {
    if i == |text| { return known; }
    var t := ReadToken(text, i);
    tokens := ReadTextsAreTokens(text, i + |t.digits| + 1, known + [t]);
    assert tokens[|known|] == t;
  }

  function TokensOf(parts: seq<Part>): seq<Token> {
    seq(|parts|, k requires 0 <= k < |parts| => Token(Decimal(parts[k].amount), parts[k].unit))
  }

  lemma TokenOfPart(p: Part)
    requires IsUnit(p.unit)
    ensures WellFormedToken(Token(Decimal(p.amount), p.unit))
    ensures Worth(Token(Decimal(p.amount), p.unit)) == Seconds(p.amount, p.unit)
  {
    NumeralRoundTrip(p.amount);
  }

  /** Printed parts are tokens of the same worth. */
  lemma {:induction false} PartsAreTokens(parts: seq<Part>, k: nat)
    requires k <= |parts| && forall p | p in parts :: IsUnit(p.unit)
    ensures WellFormed(TokensOf(parts)) && JoinedFrom(TokensOf(parts), k) == Packed(parts[k..])
    ensures WorthFrom(TokensOf(parts), k) == PartsTotal(parts[k..])
    decreases |parts| - k
  {
    forall j | 0 <= j < |parts| ensures WellFormedToken(TokensOf(parts)[j]) { TokenOfPart(parts[j]); }
    if k < |parts| {
      TokenOfPart(parts[k]);
      PartsAreTokens(parts, k + 1);
      assert parts[k..][1..] == parts[k + 1..];
    }
  }

  lemma PackedReads(text: string, parts: seq<Part>)
    requires text == Packed(parts) && forall p | p in parts :: IsUnit(p.unit)
    ensures Total(text, 0) == Some(PartsTotal(parts))
  {
    PartsAreTokens(parts, 0);
    SpellsJoined(text, 0, TokensOf(parts), 0);
    assert text[0..] == text && parts[0..] == parts;
    TokensAreRead(text, 0, TokensOf(parts), 0);
  }

  /** Reading a printed duration, spaces removed, gives back its whole minutes; below a
      minute the printed zero is refused. */
  lemma DurationRoundTrip(seconds: int)
    ensures Relative("+" + NoSpaces(Spaced(Parts(seconds)))) ==
              if seconds >= 60 then Some(seconds - seconds % 60) else None
  {
    PartsAreCanonical(seconds);
    var parts := Parts(seconds);
    SpacedStripsToPacked(parts);
    var packed := Packed(parts);
    PackedReads(packed, parts);
    assert ("+" + packed)[1..] == packed;
    NumeralRoundTrip(parts[0].amount);
  }

  lemma {:induction false} TotalsAreWholeMinutes(text: string, i: nat)
    requires i <= |text|
    ensures Total(text, i).Some? ==> Total(text, i).value % 60 == 0
    decreases |text| - i
  {
    if i < |text| && TokenAt(text, i) {
      var n := DigitsEnd(text, i);
      TotalsAreWholeMinutes(text, n + 1);
      if Total(text, i).Some? {
        MinutesOfUnit(Value(text[i..n]), text[n], Total(text, n + 1).value);
      }
    }
  }

  lemma MinutesOfUnit(amount: nat, unit: char, rest: nat)
    requires IsUnit(unit) && rest % 60 == 0
    ensures (Seconds(amount, unit) + rest) % 60 == 0
  {
    var minutes := if unit == 'd' then amount * 1440 else if unit == 'h' then amount * 60 else amount;
    assert Seconds(amount, unit) == 60 * minutes;
  }

  /** Printing what was read and reading it again changes nothing. */
  lemma ReprintedReadsTheSame(value: string)
    requires value != [] && Relative(value).Some?
    ensures Relative("+" + NoSpaces(Spaced(Parts(Relative(value).value)))) == Relative(value)
  {
    TotalsAreWholeMinutes(value[1..], 0);
    DurationRoundTrip(Relative(value).value);
  }

  /** A duration is accepted exactly when what follows its sign is a text of tokens worth
      more than nothing, and then it is their worth. */
  lemma {:induction false} AcceptedExactly(value: string, seconds: nat)
    requires value != []
    ensures Relative(value) == Some(seconds) <==>
              seconds > 0 && exists tokens :: WellFormed(tokens) && value[1..] == JoinedFrom(tokens, 0)
                                              && WorthFrom(tokens, 0) == seconds
  {
    var text := value[1..];
    assert text[0..] == text;
    forall tokens ensures Spells(text, 0, tokens, 0) <==> text == JoinedFrom(tokens, 0) {
      SpellsJoined(text, 0, tokens, 0);
    }
    if Relative(value) == Some(seconds) {
      var tokens := ReadTextsAreTokens(text, 0, []);
      TokensAreRead(text, 0, tokens, 0);
    }
    if tokens :| WellFormed(tokens) && text == JoinedFrom(tokens, 0) && WorthFrom(tokens, 0) == seconds && seconds > 0 {
      TokensAreRead(text, 0, tokens, 0);
    }
  }

  /** A leading zero does not change an amount. */
  lemma {:induction false} LeadingZero(digits: string)
    requires AllDigits(digits)
    ensures AllDigits("0" + digits) && Value("0" + digits) == Value(digits)
  {
    if digits == [] {
      assert "0"[..0] == [];
    } else {
      var n := |digits| - 1;
      LeadingZero(digits[..n]);
      assert ("0" + digits)[..n + 1] == "0" + digits[..n];
    }
  }
}
