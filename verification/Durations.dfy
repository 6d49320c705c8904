// Durations as section 3.3.6 of RFC 5545 writes them.
// internal/ical/event.go:303-386
module Durations {
  import opened Text

  datatype Result<+T> = Ok(value: T) | Err

  // Durations count nanoseconds.
  const SECOND := 1_000_000_000
  const MINUTE := 60_000_000_000
  const HOUR := 3_600_000_000_000
  const DAY := 86_400_000_000_000

  // A count followed by its unit, left out when it is zero.
  function Unit(n: nat, unit: char): string { if n > 0 then Decimal(n) + [unit] else "" }

  // What remains of a duration below a unit.
  function Below(d: nat, size: int): nat
    requires size > 0
  {
    d % size
  }

  function TimeText(t: nat): string {
    Unit(t / HOUR, 'H') + (Unit(Below(t, HOUR) / MINUTE, 'M') + Unit(Below(Below(t, HOUR), MINUTE) / SECOND, 'S'))
  }

  function DurationText(d: int): string {
    if d <= 0 then "PT0S"
    else "P" + Body(d)
  }

  method FormatDuration(duration: int) returns (text: string)
    ensures text == DurationText(duration)
  {
    if duration <= 0 {
      return "PT0S";
    }
    var d: nat;
    text, d := WriteUnit("P", duration, DAY, 'D');
    if d == 0 {
      Grouped("P", Unit(duration / DAY, 'D'), "", "", "");
      return;
    }
    var t := d;
    text := text + "T";
    text, d := WriteUnit(text, d, HOUR, 'H');
    text, d := WriteUnit(text, d, MINUTE, 'M');
    text, d := WriteUnit(text, d, SECOND, 'S');
    Grouped("P", Unit(duration / DAY, 'D'), Unit(t / HOUR, 'H'),
            Unit(Below(t, HOUR) / MINUTE, 'M'), Unit(Below(Below(t, HOUR), MINUTE) / SECOND, 'S'));
  }

  // Takes the largest count of a unit out of a duration and writes it.
  method WriteUnit(text: string, d: nat, size: int, unit: char) returns (longer: string, rest: nat)
    requires size > 0
    ensures longer == text + Unit(d / size, unit) && rest == Below(d, size)
  {
    longer, rest := text, d;
    var n := d / size;
    Division(d, size);
    if n > 0 {
      longer := text + (Decimal(n) + [unit]);
      rest := d - n * size;
    } else {
      assert text + "" == text;
    }
  }

  lemma Division(d: nat, size: int)
    requires size > 0
    ensures d == d / size * size + Below(d, size)
  {
  }

  lemma Grouped(p: string, days: string, hours: string, minutes: string, seconds: string)
    ensures p + days + "T" + hours + minutes + seconds == p + (days + ("T" + (hours + (minutes + seconds))))
    ensures p + days == p + (days + "")
  {
    assert days + "" == days;
  }

  // The value in nanoseconds of a unit, where it may stand.
  function UnitSize(unit: char, inTime: bool): Option<int> {
    match unit
    case 'W' => Some(7 * DAY)
    case 'D' => Some(DAY)
    case 'H' => Some(HOUR)
    case 'M' => if inTime then Some(MINUTE) else None
    case 'S' => Some(SECOND)
    case _ => None
  }

  // Reads counts and units, given what has been read before.
  function Units(s: string, total: int, inTime: bool, number: string): Result<int>
    requires AllDigits(number)
    decreases |s|
  {
    if s == "" then Ok(total)
    else if s[0] == 'T' then Units(s[1..], total, true, number)
    else if IsDigit(s[0]) then Units(s[1..], total, inTime, number + [s[0]])
    else if number == "" then Err
    else
      match UnitSize(s[0], inTime)
      case Some(size) => Units(s[1..], total + DecimalValue(number) * size, inTime, "")
      case None => Err
  }

  predicate IsSpace(c: char) { c == ' ' || ('\t' <= c <= '\r') }

  function TrimStart(s: string): string
    decreases |s|
  {
    if s != "" && IsSpace(s[0]) then TrimStart(s[1..]) else s
  }

  function TrimEnd(s: string): string
    decreases |s|
  {
    if s != "" && IsSpace(s[|s| - 1]) then TrimEnd(s[..|s| - 1]) else s
  }

  function TrimSpace(s: string): string { TrimEnd(TrimStart(s)) }

  // Nothing but white space.
  predicate Blank(s: string) { forall i | 0 <= i < |s| :: s[i] as int in {0x20, 0x09, 0x0A, 0x0B, 0x0C, 0x0D} }

  // Trimming takes white space off both ends and nothing else.
  lemma TrimSpaceExactly(s: string)
    ensures exists a, b :: Blank(a) && Blank(b) && s == a + TrimSpace(s) + b
    ensures var t := TrimSpace(s); t != "" ==> !Blank(t[..1]) && !Blank(t[|t| - 1..])
    ensures TrimSpace(s) == "" <==> Blank(s)
  {
    var m := TrimStart(s);
    var a := TrimStartTakes(s);
    var b := TrimEndTakes(m);
    Around(a, TrimSpace(s), b, s, m);
  }

  lemma Around(a: string, t: string, b: string, s: string, m: string)
    requires Blank(a) && Blank(b) && s == a + m && m == t + b
    requires t != "" ==> t[0] == m[0] && !IsSpace(t[0]) && !IsSpace(t[|t| - 1])
    ensures s == a + t + b && (t != "" ==> !Blank(t[..1]) && !Blank(t[|t| - 1..])) && (t == "" <==> Blank(s))
  {
    if t != "" {
      assert s[|a|] == t[0] && t[..1][0] == t[0] && t[|t| - 1..][0] == t[|t| - 1];
    } else {
      assert forall i | 0 <= i < |s| :: s[i] == if i < |a| then a[i] else b[i - |a|];
    }
  }

  lemma {:induction false} TrimStartTakes(s: string) returns (a: string)
    ensures Blank(a) && s == a + TrimStart(s) && (TrimStart(s) != "" ==> !IsSpace(TrimStart(s)[0]))
    decreases |s|
  {
    if s != "" && IsSpace(s[0]) {
      var more := TrimStartTakes(s[1..]);
      a := [s[0]] + more;
      OneBefore(s[0], more, TrimStart(s[1..]), s);
    } else {
      a := "";
    }
  }

  lemma OneBefore(c: char, more: string, t: string, s: string)
    requires s != "" && s[0] == c && s[1..] == more + t && IsSpace(c) && Blank(more)
    ensures s == [c] + more + t && Blank([c] + more)
  {
    assert s == [c] + s[1..];
  }

  lemma {:induction false} TrimEndTakes(s: string) returns (b: string)
    ensures Blank(b) && s == TrimEnd(s) + b
    ensures var t := TrimEnd(s); t != "" ==> t[0] == s[0] && !IsSpace(t[|t| - 1])
    decreases |s|
  {
    if s != "" && IsSpace(s[|s| - 1]) {
      var more := TrimEndTakes(s[..|s| - 1]);
      b := more + [s[|s| - 1]];
      assert s == s[..|s| - 1] + [s[|s| - 1]];
    } else {
      b := "";
    }
  }

  function TrimSigns(s: string): string
    decreases |s|
  {
    if s != "" && (s[0] == '+' || s[0] == '-') then TrimSigns(s[1..]) else s
  }

  function ParseDuration(text: string): Result<int> {
    var s := TrimSpace(text);
    var body := TrimSigns(s);
    if body == "" || body[0] != 'P' then Err
    else
      match Units(body[1..], 0, false, "")
      case Ok(total) => Ok(if s[0] == '-' then -total else total)
      case Err => Err
  }

  method ParseDurationText(text: string) returns (r: Result<int>)
    ensures r == ParseDuration(text)
  {
    var s := TrimSpace(text);
    var negative := s != "" && s[0] == '-';
    s := TrimSigns(s);
    if s == "" || s[0] != 'P' {
      return Err;
    }
    s := s[1..];
    var total := 0;
    var inTime := false;
    var number := "";
    var i := 0;
    assert s[0..] == s;
    while i < |s|
      invariant 0 <= i <= |s| && AllDigits(number)
      invariant Units(s[i..], total, inTime, number) == Units(s, 0, false, "")
    {
      assert s[i..][1..] == s[i + 1..];
      if s[i] == 'T' {
        inTime := true;
      } else if IsDigit(s[i]) {
        number := number + [s[i]];
      } else {
        if number == "" {
          return Err;
        }
        var size := UnitSize(s[i], inTime);
        if size.None? {
          return Err;
        }
        total := total + DecimalValue(number) * size.value;
        number := "";
      }
      i := i + 1;
    }
    if negative {
      total := -total;
    }
    return Ok(total);
  }

  // ---------------------------------------------------------------- round trip

  // The digits of a count are collected before its unit.
  lemma {:induction false} UnitsDigits(digits: string, s: string, total: int, inTime: bool, number: string)
    requires AllDigits(number) && AllDigits(digits)
    ensures AllDigits(number + digits)
    ensures Units(digits + s, total, inTime, number) == Units(s, total, inTime, number + digits)
    decreases |digits|
  {
    if digits == "" {
      assert digits + s == s && number + digits == number;
    } else {
      assert digits[0] in digits;
      assert (digits + s)[1..] == digits[1..] + s;
      UnitsDigits(digits[1..], s, total, inTime, number + [digits[0]]);
      assert number + [digits[0]] + digits[1..] == number + digits;
    }
  }

  lemma UnitReads(n: nat, unit: char, s: string, total: int, inTime: bool, size: int)
    requires unit != 'T' && !IsDigit(unit) && UnitSize(unit, inTime) == Some(size)
    ensures Units(Unit(n, unit) + s, total, inTime, "") == Units(s, total + n * size, inTime, "")
  {
    UnitText(n, unit, s);
    if n > 0 {
      DecimalRoundTrip(n);
      UnitsDigits(Decimal(n), [unit] + s, total, inTime, "");
      UnitCounts(unit, s, total, inTime, size, Decimal(n));
    }
  }

  lemma UnitText(n: nat, unit: char, s: string)
    ensures Unit(n, unit) + s == if n > 0 then Decimal(n) + ([unit] + s) else s
    ensures "" + Decimal(n) == Decimal(n)
  {
  }

  // The unit ends the number before it.
  lemma UnitCounts(unit: char, s: string, total: int, inTime: bool, size: int, number: string)
    requires unit != 'T' && !IsDigit(unit) && UnitSize(unit, inTime) == Some(size)
    requires AllDigits(number) && number != ""
    ensures Units([unit] + s, total, inTime, number) == Units(s, total + DecimalValue(number) * size, inTime, "")
  {
    assert ([unit] + s)[1..] == s;
  }

  lemma TimeReads(t: nat, total: int)
    ensures Units(TimeText(t), total, true, "") == Ok(total + t - t % SECOND)
  {
    var m := Below(t, HOUR);
    var c := Below(m, MINUTE);
    var minutes, seconds := Unit(m / MINUTE, 'M'), Unit(c / SECOND, 'S');
    UnitReads(t / HOUR, 'H', minutes + seconds, total, true, HOUR);
    var afterHours := total + t / HOUR * HOUR;
    UnitReads(m / MINUTE, 'M', seconds, afterHours, true, MINUTE);
    var afterMinutes := afterHours + m / MINUTE * MINUTE;
    UnitReads(c / SECOND, 'S', "", afterMinutes, true, SECOND);
    assert seconds + "" == seconds;
    WholeUnits(t);
  }

  // What the text of a duration reads as: the duration without its fraction
  // of a second, and zero for one that is not positive.
  lemma DurationReads(d: int)
    ensures ParseDuration(DurationText(d)) == Ok(if d <= 0 then 0 else d - d % SECOND)
  {
    if d <= 0 {
      ZeroReads();
    } else {
      BodyReads(d);
      NoSpaceAtEnds(Body(d), d);
      PrefixReads(Body(d), d - d % SECOND);
    }
  }

  // The text of a positive duration behind its first letter.
  function Body(d: nat): string {
    Unit(d / DAY, 'D') + if Below(d, DAY) == 0 then "" else "T" + TimeText(Below(d, DAY))
  }

  lemma BodyReads(d: nat)
    ensures Units(Body(d), 0, false, "") == Ok(d - d % SECOND)
  {
    var t := Below(d, DAY);
    var time := if t == 0 then "" else "T" + TimeText(t);
    UnitReads(d / DAY, 'D', time, 0, false, DAY);
    if t > 0 {
      assert time[1..] == TimeText(t);
      TimeReads(t, d / DAY * DAY);
    }
    WholeDays(d);
  }

  lemma WholeDays(d: nat)
    ensures d / DAY * DAY + Below(d, DAY) - Below(d, DAY) % SECOND == d - d % SECOND
  {
  }

  lemma WholeUnits(t: nat)
    ensures var m := Below(t, HOUR);
            var c := Below(m, MINUTE);
            t / HOUR * HOUR + m / MINUTE * MINUTE + c / SECOND * SECOND == t - t % SECOND
  {
  }

  lemma PrefixReads(body: string, total: int)
    requires Units(body, 0, false, "") == Ok(total)
    requires TrimSpace("P" + body) == "P" + body && TrimSigns("P" + body) == "P" + body
    ensures ParseDuration("P" + body) == Ok(total)
  {
    assert ("P" + body)[1..] == body;
  }

  lemma ZeroReads()
    ensures ParseDuration("PT0S") == Ok(0)
  {
    assert "PT0S" == "P" + "T0S" && "T0S"[1..] == "0" + "S";
    assert TrimStart("PT0S") == "PT0S" && TrimEnd("PT0S") == "PT0S";
    assert AllDigits("0");
    UnitsDigits("0", "S", 0, true, "");
    assert "" + "0" == "0" && "0"[..0] == "" && "S"[1..] == "";
    assert DecimalValue("0") == 0;
  }

  lemma UnitEnds(n: nat, unit: char)
    requires n > 0
    ensures Unit(n, unit) != "" && Unit(n, unit)[|Unit(n, unit)| - 1] == unit
  {
  }

  lemma NoSpaceAtEnds(body: string, d: int)
    requires d > 0 && "P" + body == DurationText(d)
    ensures TrimSpace("P" + body) == "P" + body && TrimSigns("P" + body) == "P" + body
  {
    var s := "P" + body;
    assert s[0] == 'P';
    var t := Below(d, DAY);
    if t == 0 {
      UnitEnds(d / DAY, 'D');
      assert body == Unit(d / DAY, 'D');
    }
    assert TrimStart(s) == s;
  }

  // Formatting and parsing again gives a duration back exactly when it is a
  // whole number of seconds and not negative.
  lemma DurationRoundTrip(d: int)
    ensures ParseDuration(DurationText(d)) == Ok(d) <==> d >= 0 && d % SECOND == 0
  {
    DurationReads(d);
    WholeSeconds(d);
  }

  lemma WholeSeconds(d: int)
    ensures (if d <= 0 then 0 else d - d % SECOND) == d <==> d >= 0 && d % SECOND == 0
  {
  }

  // ------------------------------------------------------ every duration text

  // What a duration is made of behind its P: counts with a unit, and the T
  // that begins the time.
  datatype Piece = Count(digits: string, unit: char) | Time

  predicate WellMade(p: Piece) {
    p.Count? ==> AllDigits(p.digits) && p.unit != 'T' && !IsDigit(p.unit)
  }

  function PieceText(p: Piece): string {
    match p
    case Count(digits, unit) => digits + [unit]
    case Time => "T"
  }

  function PiecesText(ps: seq<Piece>): string { if ps == [] then "" else PieceText(ps[0]) + PiecesText(ps[1..]) }

  // Weeks, days, hours, minutes of the time, and seconds, in nanoseconds.
  function Size(unit: char, inTime: bool): Option<int> {
    if unit == 'W' then Some(604_800_000_000_000)
    else if unit == 'D' then Some(86_400_000_000_000)
    else if unit == 'H' then Some(3_600_000_000_000)
    else if unit == 'M' && inTime then Some(60_000_000_000)
    else if unit == 'S' then Some(1_000_000_000)
    else None
  }

  // What they come to, unless a count is empty or its unit is none.
  function Worth(ps: seq<Piece>, inTime: bool): Result<int>
    requires forall p | p in ps :: WellMade(p)
    decreases |ps|
  {
    if ps == [] then Ok(0)
    else
      assert WellMade(ps[0]);
      match ps[0]
      case Time => Worth(ps[1..], true)
      case Count(digits, unit) =>
        if digits == "" || Size(unit, inTime).None? then Err
        else
          match Worth(ps[1..], inTime)
          case Ok(more) => Ok(DecimalValue(digits) * Size(unit, inTime).value + more)
          case Err => Err
  }

  lemma {:induction false} UnitsOfPieces(ps: seq<Piece>, trailing: string, total: int, inTime: bool)
    requires (forall p | p in ps :: WellMade(p)) && AllDigits(trailing)
    ensures Units(PiecesText(ps) + trailing, total, inTime, "") ==
            match Worth(ps, inTime)
            case Ok(worth) => Ok(total + worth)
            case Err => Err
    decreases |ps|
  {
    if ps == [] {
      TrailingDigits(trailing, total, inTime);
    } else {
      var rest := PiecesText(ps[1..]) + trailing;
      assert WellMade(ps[0]);
      assert PiecesText(ps) + trailing == PieceText(ps[0]) + rest;
      match ps[0]
      case Time =>
        assert ("T" + rest)[1..] == rest;
        UnitsOfPieces(ps[1..], trailing, total, true);
      case Count(digits, unit) =>
        CountRead(digits, unit, rest, total, inTime);
        if digits != "" && Size(unit, inTime).Some? {
          UnitsOfPieces(ps[1..], trailing, total + DecimalValue(digits) * Size(unit, inTime).value, inTime);
        }
    }
  }

  lemma TrailingDigits(trailing: string, total: int, inTime: bool)
    requires AllDigits(trailing)
    ensures Units("" + trailing, total, inTime, "") == Ok(total)
  {
    UnitsDigits(trailing, "", total, inTime, "");
    assert trailing + "" == trailing == "" + trailing;
  }

  lemma CountRead(digits: string, unit: char, rest: string, total: int, inTime: bool)
    requires AllDigits(digits) && unit != 'T' && !IsDigit(unit)
    ensures Units(digits + [unit] + rest, total, inTime, "") ==
            if digits == "" || Size(unit, inTime).None? then Err
            else Units(rest, total + DecimalValue(digits) * Size(unit, inTime).value, inTime, "")
  {
    var s := [unit] + rest;
    assert digits + [unit] + rest == digits + s && s[1..] == rest && "" + digits == digits;
    UnitsDigits(digits, s, total, inTime, "");
    SizesAgree(unit, inTime);
  }

  lemma SizesAgree(unit: char, inTime: bool)
    ensures UnitSize(unit, inTime) == Size(unit, inTime)
  {
  }

  predicate Signs(s: string) { forall i | 0 <= i < |s| :: s[i] in {'+', '-'} }

  // Reading any text of white space, signs, a P, such pieces and white space:
  // it is what the pieces come to, less than nothing when the first sign is a
  // minus; digits at the end that no unit follows are ignored.
  lemma DurationTextReads(before: string, signs: string, ps: seq<Piece>, trailing: string, behind: string)
    requires Blank(before) && Blank(behind) && Signs(signs) && AllDigits(trailing)
    requires forall p | p in ps :: WellMade(p)
    requires forall p | p in ps && p.Count? :: !IsSpace(p.unit)
    ensures ParseDuration(before + (signs + ("P" + (PiecesText(ps) + trailing))) + behind) ==
            match Worth(ps, false)
            case Ok(worth) => Ok(if signs != "" && signs[0] == '-' then -worth else worth)
            case Err => Err
  {
    var text := PiecesText(ps) + trailing;
    EndsInNoSpace(ps, trailing);
    UnitsOfPieces(ps, trailing, 0, false);
    BodyBetween(before, signs, text, behind);
  }

  lemma BodyBetween(before: string, signs: string, text: string, behind: string)
    requires Blank(before) && Blank(behind) && Signs(signs) && !IsSpace(("P" + text)[|text|])
    ensures ParseDuration(before + (signs + ("P" + text)) + behind) ==
            match Units(text, 0, false, "")
            case Ok(total) => Ok(if signs != "" && signs[0] == '-' then -total else total)
            case Err => Err
  {
    var body := "P" + text;
    var s := signs + body;
    TrimmedBetween(before, s, behind);
    SignsTaken(signs, body);
    assert signs != "" ==> s[0] == signs[0];
    ParsedFrom(before + s + behind, s, body, text);
  }

  lemma ParsedFrom(whole: string, s: string, body: string, text: string)
    requires TrimSpace(whole) == s && TrimSigns(s) == body && s != "" && body != "" && body[0] == 'P' && body[1..] == text
    ensures ParseDuration(whole) ==
            match Units(text, 0, false, "")
            case Ok(total) => Ok(if s[0] == '-' then -total else total)
            case Err => Err
  {
  }

  lemma {:induction false} SignsTaken(signs: string, body: string)
    requires Signs(signs) && body != "" && body[0] == 'P'
    ensures TrimSigns(signs + body) == body
  {
    if signs == "" {
      assert signs + body == body;
    } else {
      assert (signs + body)[1..] == signs[1..] + body;
      SignsTaken(signs[1..], body);
    }
  }

  lemma {:induction false} EndsInNoSpace(ps: seq<Piece>, trailing: string)
    requires (forall p | p in ps :: WellMade(p)) && AllDigits(trailing)
    requires forall p | p in ps && p.Count? :: !IsSpace(p.unit)
    ensures var t := PiecesText(ps) + trailing; !IsSpace(("P" + t)[|t|])
    decreases |ps|
  {
    if trailing != "" {
      assert trailing[|trailing| - 1] in trailing;
    } else if ps != [] {
      EndsInNoSpace(ps[1..], trailing);
      LastOf(ps);
    }
  }

  lemma LastOf(ps: seq<Piece>)
    requires ps != [] && WellMade(ps[0]) && (ps[0].Count? ==> !IsSpace(ps[0].unit))
    requires var r := PiecesText(ps[1..]) + ""; r == "" || !IsSpace(("P" + r)[|r|])
    ensures var t := PiecesText(ps) + ""; !IsSpace(("P" + t)[|t|])
  {
    var r := PiecesText(ps[1..]);
    assert r + "" == r && PiecesText(ps) + "" == PieceText(ps[0]) + r;
  }

  lemma TrimmedBetween(before: string, s: string, behind: string)
    requires Blank(before) && Blank(behind) && s != "" && !IsSpace(s[0]) && !IsSpace(s[|s| - 1])
    ensures TrimSpace(before + s + behind) == s
  {
    StartTrimmed(before, s + behind);
    assert before + (s + behind) == before + s + behind;
    EndTrimmed(s, behind);
  }

  lemma {:induction false} StartTrimmed(before: string, s: string)
    requires Blank(before) && s != "" && !IsSpace(s[0])
    ensures TrimStart(before + s) == s
  {
    if before == "" {
      assert before + s == s;
    } else {
      assert (before + s)[1..] == before[1..] + s;
      StartTrimmed(before[1..], s);
    }
  }

  lemma {:induction false} EndTrimmed(s: string, behind: string)
    requires Blank(behind) && s != "" && !IsSpace(s[|s| - 1])
    ensures TrimEnd(s + behind) == s
    decreases |behind|
  {
    if behind == "" {
      assert s + behind == s;
    } else {
      var n := |behind| - 1;
      assert (s + behind)[..|s + behind| - 1] == s + behind[..n];
      EndTrimmed(s, behind[..n]);
    }
  }

  // A number of weeks.
  lemma WeeksRead(n: nat)
    ensures ParseDuration("P" + (Decimal(n) + "W")) == Ok(n * 604_800_000_000_000)
  {
    var p := Count(Decimal(n), 'W');
    DecimalRoundTrip(n);
    OnePiece(p);
    DurationTextReads("", "", [p], "", "");
    NothingAround(PiecesText([p]));
    assert Worth([p], false) == Ok(n * 604_800_000_000_000 + 0) by { assert [p][1..] == []; }
  }

  lemma OnePiece(p: Piece)
    ensures PiecesText([p]) == PieceText(p)
  {
    assert [p][1..] == [];
    assert PieceText(p) + "" == PieceText(p);
  }

  lemma NothingAround(text: string)
    ensures "" + ("" + ("P" + (text + ""))) + "" == "P" + text
  {
    assert text + "" == text;
  }

  // Without a P nothing is read.
  lemma NoDuration(s: string)
    requires TrimSigns(TrimSpace(s)) == "" || TrimSigns(TrimSpace(s))[0] != 'P'
    ensures ParseDuration(s) == Err
  {
  }

  // ---------------------------------------------------- the text of a duration

  // What a positive duration comes to in whole days, hours, minutes and seconds,
  // and what is left of a second.
  datatype Parts = Parts(days: nat, hours: nat, minutes: nat, seconds: nat, rest: nat)

  predicate PartsOf(d: int, p: Parts) {
    d == p.days * 86_400_000_000_000 + p.hours * 3_600_000_000_000 + p.minutes * 60_000_000_000 +
         p.seconds * 1_000_000_000 + p.rest &&
    p.hours < 24 && p.minutes < 60 && p.seconds < 60 && p.rest < 1_000_000_000
  }

  // How it is written: each part left out when it is zero, with a T before the
  // time when there is any.
  function Spelling(d: int, p: Parts): string {
    "P" + (PiecesText(Counted(p.days, 'D')) +
           if d == p.days * 86_400_000_000_000 then ""
           else "T" + (PiecesText(Counted(p.hours, 'H')) +
                       (PiecesText(Counted(p.minutes, 'M')) + PiecesText(Counted(p.seconds, 'S')))))
  }

  lemma DurationIsSpelled(d: int, p: Parts)
    requires d > 0 && PartsOf(d, p)
    ensures DurationText(d) == Spelling(d, p)
  {
    var t := Below(d, DAY);
    var m := Below(t, HOUR);
    var c := Below(m, MINUTE);
    Split4(d);
    PartsAre(d, p, Parts(d / DAY, t / HOUR, m / MINUTE, c / SECOND, c % SECOND));
    CountedText(p.days, 'D');
    CountedText(p.hours, 'H');
    CountedText(p.minutes, 'M');
    CountedText(p.seconds, 'S');
  }

  lemma PartsAre(d: int, p: Parts, q: Parts)
    requires PartsOf(d, p) && PartsOf(d, q)
    ensures p == q
  {
    var t := p.hours * 3_600_000_000_000 + p.minutes * 60_000_000_000 + p.seconds * 1_000_000_000 + p.rest;
    var u := q.hours * 3_600_000_000_000 + q.minutes * 60_000_000_000 + q.seconds * 1_000_000_000 + q.rest;
    assert 0 <= t < 86_400_000_000_000 && 0 <= u < 86_400_000_000_000;
    assert p.days == q.days;
    assert p.hours == q.hours;
    assert p.minutes == q.minutes;
  }

  lemma Split4(d: int)
    requires d > 0
    ensures var t := Below(d, DAY);
            var m := Below(t, HOUR);
            var c := Below(m, MINUTE);
            d == d / DAY * DAY + t && t == t / HOUR * HOUR + m && m == m / MINUTE * MINUTE + c &&
            c == c / SECOND * SECOND + c % SECOND && t / HOUR < 24 && m / MINUTE < 60 && c / SECOND < 60
  {
  }

  function Counted(n: nat, unit: char): seq<Piece> { if n == 0 then [] else [Count(Decimal(n), unit)] }

  lemma CountedText(n: nat, unit: char)
    ensures PiecesText(Counted(n, unit)) == Unit(n, unit)
  {
    if n > 0 {
      assert Counted(n, unit)[1..] == [];
      assert Decimal(n) + [unit] + "" == Decimal(n) + [unit];
    }
  }
}
