/** Mixed-radix durations and the Start / Duration / End form of the mute
    page. Durations are in milliseconds; a datetime-local value counts
    minutes. */
module Duration {
  import opened Common

  // --- Reading numbers ----------------------------------------------------

  predicate IsDigit(c: char) { '0' <= c <= '9' }

  predicate AllDigits(s: string)
  {
    forall i | 0 <= i < |s| :: IsDigit(s[i])
  }

  function Digit(c: char): nat
    requires IsDigit(c)
  {
    c as int - '0' as int
  }

  /** `parseInt(s, 10)` on a string of digits. */
  function Value(s: string): nat
    requires AllDigits(s)
  {
    if s == "" then 0 else 10 * Value(s[..|s| - 1]) + Digit(s[|s| - 1])
  }

  predicate IsUnit(c: char)
  {
    c == 's' || c == 'm' || c == 'h' || c == 'd'
  }

  /** `n` of a unit in milliseconds; nothing when `c` is no unit. */
  function InUnit(n: nat, c: char): nat
  {
    match c
    case 's' => n * 1000
    case 'm' => n * 60000
    case 'h' => n * 3600000
    case 'd' => n * 86400000
    case _ => 0
  }

  // --- What a duration text denotes ---------------------------------------

  /** The number the digits directly before the end of `s` spell; 0 if none. */
  function RunValue(s: string): nat
  {
    if s == "" || !IsDigit(s[|s| - 1]) then 0 else 10 * RunValue(s[..|s| - 1]) + Digit(s[|s| - 1])
  }

  /** The sum, over every unit letter, of the number directly before it in
      that unit; anything else in the text counts for nothing. */
  function Total(s: string): nat
  {
    if s == "" then 0
    else Total(s[..|s| - 1]) + InUnit(RunValue(s[..|s| - 1]), s[|s| - 1])
  }

  function ParsedDuration(s: string): Option<nat>
  {
    if Total(s) > 0 then Some(Total(s)) else None
  }

  // --- The regular expression (\d+)([smhd]) -------------------------------

  /** s[i..j] is a number and s[j] its unit. */
  predicate IsMatch(s: string, i: int, j: int)
  {
    0 <= i < j < |s| && AllDigits(s[i..j]) && IsUnit(s[j])
  }

  /** The leftmost match at or after `from`, as `re.exec` finds it. */
  method Exec(s: string, from: nat) returns (found: Option<(nat, nat)>)
    requires from <= |s|
    ensures found.Some? ==> from <= found.value.0 && IsMatch(s, found.value.0, found.value.1)
    ensures forall i, j :: from <= i < (if found.Some? then found.value.0 else |s|) ==> !IsMatch(s, i, j)
  {
    var i := from;
    while i < |s|
      invariant from <= i <= |s|
      invariant forall k, j :: from <= k < i ==> !IsMatch(s, k, j)
    {
      var j := i;
      while j < |s| && IsDigit(s[j])
        invariant i <= j <= |s|
        invariant forall k :: i <= k < j ==> IsDigit(s[k])
      {
        j := j + 1;
      }
      if i < j < |s| && IsUnit(s[j]) {
        return Some((i, j));
      }
      forall k ensures !IsMatch(s, i, k) {
        if j < k < |s| {
          assert s[i..k][j - i] == s[j];
        }
      }
      i := i + 1;
    }
    return None;
  }

  lemma {:induction false} RunValueAfterDigits(s: string, i: nat, j: nat)
    requires i <= j <= |s| && AllDigits(s[i..j]) && (i == 0 || !IsDigit(s[i - 1]))
    ensures RunValue(s[..j]) == Value(s[i..j])
    decreases j
  {
    if i < j {
      assert s[i..j][..j - i - 1] == s[i..j - 1] && s[i..j][j - i - 1] == s[j - 1] && s[..j][..j - 1] == s[..j - 1];
      RunValueAfterDigits(s, i, j - 1);
    } else if i > 0 {
      assert s[..j][j - 1] == s[i - 1];
    }
  }

  /** A stretch that ends no match adds nothing. */
  lemma {:induction false} NothingBetween(s: string, from: nat, end: nat)
    requires from <= end <= |s| && (from == 0 || !IsDigit(s[from - 1]))
    requires forall i, j :: from <= i && j < end ==> !IsMatch(s, i, j)
    ensures Total(s[..end]) == Total(s[..from])
    decreases end
  {
    if from < end {
      NothingBetween(s, from, end - 1);
      assert s[..end][..end - 1] == s[..end - 1];
      if IsUnit(s[end - 1]) {
        var i := RunStart(s, from, end - 1);
        if i < end - 1 {
          assert IsMatch(s, i, end - 1);
        }
        RunValueAfterDigits(s, i, end - 1);
      }
    }
  }

  /** Where the digits that end at `end` begin. */
  lemma {:induction false} RunStart(s: string, from: nat, end: nat) returns (i: nat)
    requires from <= end <= |s| && (from == 0 || !IsDigit(s[from - 1]))
    ensures from <= i <= end && AllDigits(s[i..end]) && (i == 0 || !IsDigit(s[i - 1]))
    decreases end
  {
    i := end;
    if from < end && IsDigit(s[end - 1]) {
      i := RunStart(s, from, end - 1);
      forall k | 0 <= k < |s[i..end]| ensures IsDigit(s[i..end][k]) {
        assert s[i..end][k] == s[i + k];
        assert k < end - 1 - i ==> s[i..end - 1][k] == s[i + k];
      }
    }
  }

  /** A leftmost match starts its digits: none stands directly before it. */
  lemma LeftmostStartsRun(s: string, from: nat, i: nat, j: nat)
    requires from <= i && IsMatch(s, i, j) && (from == 0 || !IsDigit(s[from - 1]))
    requires forall k, l :: from <= k < i ==> !IsMatch(s, k, l)
    ensures i == 0 || !IsDigit(s[i - 1])
  {
    if i > from && IsDigit(s[i - 1]) {
      assert s[i - 1..j] == [s[i - 1]] + s[i..j];
      assert IsMatch(s, i - 1, j);
    }
  }

  /** No match that begins inside another ends before it. */
  lemma NoEarlierEnd(s: string, i: nat, j: nat, k: int, l: int)
    requires IsMatch(s, i, j) && i <= k && l < j
    ensures !IsMatch(s, k, l)
  {
    if k < l {
      assert s[l] == s[i..j][l - i];
    }
  }

  method ParseDuration(s: string) returns (ms: Option<nat>)
    ensures ms == ParsedDuration(s)
  {
    var total, lastIndex := 0, 0;
    assert s[..0] == "";
    var m := Exec(s, lastIndex);
    while m.Some?
      invariant lastIndex <= |s| && (lastIndex == 0 || !IsDigit(s[lastIndex - 1]))
      invariant total == Total(s[..lastIndex])
      invariant m.Some? ==> lastIndex <= m.value.0 && IsMatch(s, m.value.0, m.value.1)
      invariant forall i, j :: lastIndex <= i < (if m.Some? then m.value.0 else |s|) ==> !IsMatch(s, i, j)
      decreases |s| - lastIndex, m.Some?
    {
      var i, j := m.value.0, m.value.1;
      var n := Value(s[i..j]);
      total := total + InUnit(n, s[j]);
      forall k, l | lastIndex <= k && l < j ensures !IsMatch(s, k, l) {
        if i <= k {
          NoEarlierEnd(s, i, j, k, l);
        }
      }
      NothingBetween(s, lastIndex, j);
      LeftmostStartsRun(s, lastIndex, i, j);
      RunValueAfterDigits(s, i, j);
      assert s[..j + 1][..j] == s[..j];
      lastIndex := j + 1;
      m := Exec(s, lastIndex);
    }
    NothingBetween(s, lastIndex, |s|);
    assert s[..|s|] == s;
    return if total > 0 then Some(total) else None;
  }

  // --- Printing -----------------------------------------------------------

  /** A number's decimal digits. */
  function Decimal(n: nat): (s: string)
    ensures s != "" && AllDigits(s)
  {
    var last := [('0' as int + n % 10) as char];
    if n < 10 then last else Decimal(n / 10) + last
  }

  lemma {:induction false} DecimalRoundTrip(n: nat)
    ensures Value(Decimal(n)) == n
  {
    var s := Decimal(n);
    if n >= 10 {
      DecimalRoundTrip(n / 10);
      assert s[..|s| - 1] == Decimal(n / 10);
    } else {
      assert s[..|s| - 1] == "";
    }
  }

  /** A count in a unit, left out when zero. */
  function Part(n: nat, unit: char): string
  {
    if n == 0 then "" else Decimal(n) + [unit]
  }

  function Spelled(days: nat, hours: nat, minutes: nat): string
  {
    var out := Part(days, 'd') + Part(hours, 'h') + Part(minutes, 'm');
    if out == "" then "0m" else out
  }

  function Formatted(ms: nat): string
  {
    var minutes := ms / 60000;
    Spelled(minutes / 60 / 24, minutes / 60 % 24, minutes % 60)
  }

  method FormatDuration(duration: nat) returns (out: string)
    ensures out == Formatted(duration)
  {
    var ms := duration;
    var days := ms / 86400000;
    ms := ms - days * 86400000;
    var hours := ms / 3600000;
    ms := ms - hours * 3600000;
    var minutes := ms / 60000;
    MixedRadix(duration, days, hours, minutes);
    out := Spell(days, hours, minutes);
  }

  method Spell(days: nat, hours: nat, minutes: nat) returns (out: string)
    ensures out == Spelled(days, hours, minutes)
  {
    out := "";
    if days != 0 {
      out := out + (Decimal(days) + "d");
    }
    assert out == Part(days, 'd');
    if hours != 0 {
      out := out + (Decimal(hours) + "h");
    }
    assert out == Part(days, 'd') + Part(hours, 'h');
    if minutes != 0 {
      out := out + (Decimal(minutes) + "m");
    }
    assert out == Part(days, 'd') + Part(hours, 'h') + Part(minutes, 'm');
    if out == "" {
      out := "0m";
    }
  }

  lemma MixedRadix(ms: nat, days: nat, hours: nat, minutes: nat)
    requires days == ms / 86400000 && hours == (ms - days * 86400000) / 3600000
             && minutes == (ms - days * 86400000 - hours * 3600000) / 60000
    ensures days == ms / 60000 / 60 / 24 && hours == ms / 60000 / 60 % 24 && minutes == ms / 60000 % 60
    ensures hours < 24 && minutes < 60 && (days * 1440 + hours * 60 + minutes) == ms / 60000
  {
  }

  // --- Round trip ---------------------------------------------------------

  /** Digits after text that does not end in one: they make up the number
      directly before the end, and count for nothing without a unit. */
  lemma DigitsWait(before: string, digits: string, run: string)
    requires run == before + digits && AllDigits(digits) && (before == "" || !IsDigit(before[|before| - 1]))
    ensures RunValue(run) == Value(digits) && Total(run) == Total(before)
  {
    assert run[..|before|] == before && run[|before|..|run|] == digits && run[..|run|] == run;
    assert before == "" || run[|before| - 1] == before[|before| - 1];
    RunValueAfterDigits(run, |before|, |run|);
    forall k, l | |before| <= k && l < |run| ensures !IsMatch(run, k, l) {
      if k < l {
        assert run[l] == digits[l - |before|];
      }
    }
    NothingBetween(run, |before|, |run|);
  }

  /** A number and its unit, after text that does not end in a digit. */
  lemma NumberAdds(before: string, digits: string, unit: char)
    requires IsUnit(unit) && AllDigits(digits) && (before == "" || !IsDigit(before[|before| - 1]))
    ensures Total(before + digits + [unit]) == Total(before) + InUnit(Value(digits), unit)
  {
    var run := before + digits;
    DigitsWait(before, digits, run);
    assert (run + [unit])[..|run|] == run;
  }

  /** What the units are: a number of seconds, minutes, hours or days adds that
      many milliseconds. */
  lemma UnitsMean(before: string, n: nat)
    requires before == "" || !IsDigit(before[|before| - 1])
    ensures Total(before + Decimal(n) + "s") == Total(before) + n * 1000
    ensures Total(before + Decimal(n) + "m") == Total(before) + n * 60000
    ensures Total(before + Decimal(n) + "h") == Total(before) + n * 3600000
    ensures Total(before + Decimal(n) + "d") == Total(before) + n * 86400000
  {
    DecimalRoundTrip(n);
    NumberAdds(before, Decimal(n), 's');
    NumberAdds(before, Decimal(n), 'm');
    NumberAdds(before, Decimal(n), 'h');
    NumberAdds(before, Decimal(n), 'd');
  }

  lemma PartAdds(before: string, n: nat, unit: char)
    requires IsUnit(unit) && (before == "" || !IsDigit(before[|before| - 1]))
    ensures Total(before + Part(n, unit)) == Total(before) + InUnit(n, unit)
    ensures var s := before + Part(n, unit); s == "" || !IsDigit(s[|s| - 1])
  {
    if n == 0 {
      assert before + "" == before;
    } else {
      NumberAdds(before, Decimal(n), unit);
      DecimalRoundTrip(n);
      assert before + Decimal(n) + [unit] == before + Part(n, unit);
    }
  }

  lemma NothingTotal()
    ensures Total("0m") == 0
  {
    assert "0"[..0] == "" && Value("0") == 0;
    NumberAdds("", "0", 'm');
    assert "" + "0" + "m" == "0m";
  }

  lemma PartsTotal(days: nat, hours: nat, minutes: nat)
    ensures Total(Part(days, 'd') + Part(hours, 'h') + Part(minutes, 'm'))
         == days * 86400000 + hours * 3600000 + minutes * 60000
  {
    var one, two := Part(days, 'd'), Part(days, 'd') + Part(hours, 'h');
    PartAdds("", days, 'd');
    assert "" + one == one;
    PartAdds(one, hours, 'h');
    PartAdds(two, minutes, 'm');
  }

  lemma SpelledTotal(days: nat, hours: nat, minutes: nat)
    ensures Total(Spelled(days, hours, minutes)) == days * 86400000 + hours * 3600000 + minutes * 60000
  {
    PartsTotal(days, hours, minutes);
    NothingTotal();
  }

  /** Parsing what was printed gives the duration rounded down to a minute,
      and nothing exactly when that is zero. */
  lemma DurationRoundTrip(ms: nat)
    ensures Total(Formatted(ms)) == ms / 60000 * 60000
    ensures ParsedDuration(Formatted(ms)) == if ms / 60000 > 0 then Some(ms / 60000 * 60000) else None
  {
    var minutes := ms / 60000;
    RadixValue(minutes);
    SpelledTotal(minutes / 60 / 24, minutes / 60 % 24, minutes % 60);
  }

  lemma RadixValue(minutes: nat)
    ensures minutes / 60 / 24 * 86400000 + minutes / 60 % 24 * 3600000 + minutes % 60 * 60000 == minutes * 60000
  {
    var hours := minutes / 60;
    assert hours / 24 * 24 + hours % 24 == hours && hours * 60 + minutes % 60 == minutes;
  }

  /** The printed form is unique to its minute. */
  lemma FormattedIsCanonical(a: nat, b: nat)
    ensures Formatted(a) == Formatted(b) <==> a / 60000 == b / 60000
  {
    DurationRoundTrip(a);
    DurationRoundTrip(b);
  }

  /** These are the days, hours below 24 and minutes below 60 that make up the
      duration's whole minutes, and `text` spells those of them that are not
      zero. */
  ghost predicate SpellsOut(text: string, ms: nat, d: nat, h: nat, m: nat)
  {
    && h < 24 && m < 60 && d * 1440 + h * 60 + m == ms / 60000
    && text == if ms < 60000 then "0m"
               else (if d > 0 then Decimal(d) + "d" else "") + (if h > 0 then Decimal(h) + "h" else "")
                    + (if m > 0 then Decimal(m) + "m" else "")
  }

  lemma FormattedIsMixedRadix(ms: nat)
    ensures exists d: nat, h: nat, m: nat :: SpellsOut(Formatted(ms), ms, d, h, m)
  {
    var minutes := ms / 60000;
    var d, h, m := minutes / 60 / 24, minutes / 60 % 24, minutes % 60;
    assert d * 1440 + h * 60 + m == minutes;
    assert ms < 60000 <==> d == 0 && h == 0 && m == 0;
    SpelledParts(d, h, m);
    assert SpellsOut(Formatted(ms), ms, d, h, m);
  }

  lemma SpelledParts(d: nat, h: nat, m: nat)
    ensures Spelled(d, h, m)
         == if d == 0 && h == 0 && m == 0 then "0m"
            else (if d > 0 then Decimal(d) + "d" else "") + (if h > 0 then Decimal(h) + "h" else "")
                 + (if m > 0 then Decimal(m) + "m" else "")
  {
  }

  // --- The form -----------------------------------------------------------

  /** The End value after `recomputeEnd`: writing it as a datetime-local
      value drops what is below a minute. */
  function EndAfter(startsAt: Option<int>, duration: string, endsAt: Option<int>): Option<int>
  {
    if startsAt.Some? && ParsedDuration(duration).Some?
    then Some(startsAt.value + ParsedDuration(duration).value / 60000)
    else endsAt
  }

  /** The Duration value after `recomputeDuration`. */
  function DurationAfter(startsAt: Option<int>, duration: string, endsAt: Option<int>): string
  {
    if startsAt.Some? && endsAt.Some? && startsAt.value < endsAt.value
    then Formatted((endsAt.value - startsAt.value) * 60000)
    else duration
  }

  /** End is Start plus the duration, to the minute. */
  predicate Coherent(startsAt: Option<int>, duration: string, endsAt: Option<int>)
  {
    && startsAt.Some? && endsAt.Some? && ParsedDuration(duration).Some?
    && endsAt.value == startsAt.value + ParsedDuration(duration).value / 60000
  }

  lemma WholeMinutes(n: nat)
    requires n > 0
    ensures ParsedDuration(Formatted(n * 60000)) == Some(n * 60000)
    ensures Total(Formatted(n * 60000)) == n * 60000
  {
    assert n * 60000 / 60000 == n;
    DurationRoundTrip(n * 60000);
  }

  lemma EndOfWholeMinutes(startsAt: Option<int>, duration: string, endsAt: Option<int>, n: nat)
    requires startsAt.Some? && ParsedDuration(duration) == Some(n * 60000)
    ensures EndAfter(startsAt, duration, endsAt) == Some(startsAt.value + n)
    ensures Coherent(startsAt, duration, Some(startsAt.value + n))
  {
    assert n * 60000 / 60000 == n;
  }

  /** Form fixed point: with Start before End, recomputing the duration and
      then the end leaves End unchanged, and the form coherent. */
  lemma EndIsFixed(startsAt: Option<int>, duration: string, endsAt: Option<int>)
    requires startsAt.Some? && endsAt.Some? && startsAt.value < endsAt.value
    ensures var d := DurationAfter(startsAt, duration, endsAt);
            EndAfter(startsAt, d, endsAt) == endsAt && Coherent(startsAt, d, endsAt)
  {
    var n := endsAt.value - startsAt.value;
    DurationIsDifference(startsAt, duration, endsAt, n);
    EndOfWholeMinutes(startsAt, DurationAfter(startsAt, duration, endsAt), endsAt, n);
  }

  lemma DurationIsDifference(startsAt: Option<int>, duration: string, endsAt: Option<int>, n: nat)
    requires startsAt.Some? && endsAt.Some? && n == endsAt.value - startsAt.value > 0
    ensures var d := DurationAfter(startsAt, duration, endsAt);
            ParsedDuration(d) == Some(n * 60000) && Total(d) == n * 60000
  {
    WholeMinutes(n);
    assert DurationAfter(startsAt, duration, endsAt) == Formatted(n * 60000);
  }

  /** The other way round: recomputing the end and then the duration gives a
      coherent form that does not change further. The duration is rounded
      down to whole minutes, so it keeps its meaning exactly when it has
      whole minutes only, or none. */
  lemma DurationIsRounded(startsAt: Option<int>, duration: string, endsAt: Option<int>)
    requires startsAt.Some? && ParsedDuration(duration).Some?
    ensures var e := EndAfter(startsAt, duration, endsAt); var d := DurationAfter(startsAt, duration, e);
            && Coherent(startsAt, d, e)
            && EndAfter(startsAt, d, e) == e
            && (Total(d) == Total(duration) <==> Total(duration) < 60000 || Total(duration) % 60000 == 0)
  {
    var e := EndAfter(startsAt, duration, endsAt);
    RoundedDown(Total(duration));
    if startsAt.value < e.value {
      EndIsFixed(startsAt, duration, e);
      DurationIsDifference(startsAt, duration, e, e.value - startsAt.value);
    }
  }

  lemma RoundedDown(total: nat)
    ensures total / 60000 * 60000 == total <==> total % 60000 == 0
    ensures total >= 60000 <==> total / 60000 > 0
  {
  }

  lemma EndIsLater(start: int, ms: nat)
    ensures (start * 60000 + ms) / 60000 == start + ms / 60000
  {
  }

  /** The three inputs of the mute form and their listeners. */
  class Form {
    var startsAt: Option<int>
    var duration: string
    var endsAt: Option<int>

    constructor (startsAt: Option<int>, duration: string, endsAt: Option<int>)
      ensures this.startsAt == startsAt && this.duration == duration && this.endsAt == endsAt
    {
      this.startsAt, this.duration, this.endsAt := startsAt, duration, endsAt;
    }

    method RecomputeEnd()
      modifies this`endsAt
      ensures endsAt == EndAfter(startsAt, duration, old(endsAt))
      ensures startsAt.None? || ParsedDuration(duration).None? ==> endsAt == old(endsAt)
      ensures startsAt.Some? && ParsedDuration(duration).Some? ==> Coherent(startsAt, duration, endsAt)
    {
      var ms := ParseDuration(duration);
      if startsAt.Some? && ms.Some? {
        EndIsLater(startsAt.value, ms.value);
        endsAt := Some((startsAt.value * 60000 + ms.value) / 60000);
      }
    }

    method RecomputeDuration()
      modifies this`duration
      ensures duration == DurationAfter(startsAt, old(duration), endsAt)
      ensures startsAt.None? || endsAt.None? || endsAt.value <= startsAt.value ==> duration == old(duration)
    {
      if startsAt.Some? && endsAt.Some? && startsAt.value < endsAt.value {
        duration := FormatDuration((endsAt.value - startsAt.value) * 60000);
      }
    }

    /** The listener on Start. */
    method EditStart(value: Option<int>)
      modifies this`startsAt, this`endsAt
      ensures startsAt == value && endsAt == EndAfter(value, duration, old(endsAt))
      ensures startsAt.Some? && ParsedDuration(duration).Some? ==> Coherent(startsAt, duration, endsAt)
    {
      startsAt := value;
      RecomputeEnd();
    }

    /** The listener on Duration. */
    method EditDuration(value: string)
      modifies this`duration, this`endsAt
      ensures duration == value && endsAt == EndAfter(startsAt, value, old(endsAt))
      ensures startsAt.Some? && ParsedDuration(duration).Some? ==> Coherent(startsAt, duration, endsAt)
    {
      duration := value;
      RecomputeEnd();
    }

    /** The listener on End. */
    method EditEnd(value: Option<int>)
      modifies this`endsAt, this`duration
      ensures endsAt == value && duration == DurationAfter(startsAt, old(duration), value)
      ensures startsAt.Some? && endsAt.Some? && startsAt.value < endsAt.value ==> Coherent(startsAt, duration, endsAt)
    {
      endsAt := value;
      if startsAt.Some? && endsAt.Some? && startsAt.value < endsAt.value {
        EndIsFixed(startsAt, duration, endsAt);
      }
      RecomputeDuration();
    }
  }
}
