/** Field extraction from one raw schedule record of the train-ticket query.

    A record is one string whose fields are separated by `|`. The viewer
    never splits it; it runs regular expressions over the whole string and
    takes the first match (`re.findall(...)[0]`). Since none of those
    patterns can match a `|` inside a run of `\w`, `\d` or CJK characters,
    each pattern's leftmost match is determined by the first field index
    at which a condition on the neighbouring fields holds. This module
    states those conditions over the fields of `Split(raw, '|')` and finds
    the first index with a search whose contract says "first". */
module Records {
  import opened Strings

  datatype Option<T> = None | Some(value: T)

  /** Which extraction found nothing (Python raises IndexError on `[0]`). */
  datatype Pattern =
    | CategoryPattern           // `[一-龥]+\|\w+\|(\w)` and `[一-龥]+\|\w+\|(\w+)`
    | StationPattern            // `(\w+)\|(\w+)\|\d+:`
    | TimePattern               // `\|(\d+:\d+)`, fewer than two matches
    | SeatPattern(offset: nat)  // `(\d){8}\|(\w*\|){offset}(\w*)`

  /** The two exceptions building a row can raise. */
  datatype Error =
    | NoMatch(pattern: Pattern)      // IndexError from an empty `re.findall`
    | UnknownStation(code: string)   // KeyError from the station map

  datatype Result<T> = Ok(value: T) | Err(error: Error) {
    predicate IsFailure() { Err? }
    function PropagateFailure<U>(): Result<U> requires Err? { Err(error) }
    function Extract(): T requires Ok? { value }
  }

  /** The fields of a raw record. */
  function Fields(raw: string): (f: seq<string>)
    ensures |f| >= 1
  {
    Split(raw, '|')
  }

  // ---------------------------------------------------------------------
  // Train category and train number (tickets.py lines 56 and 63)

  /** The category patterns match with their CJK run ending field `i`: field
      `i` ends in a CJK character, field `i + 1` is a non-empty word, and
      field `i + 2` starts with a word character. */
  predicate CategoryAt(f: seq<string>, i: nat) {
    i + 2 < |f|
    && |f[i]| > 0 && IsCjk(f[i][|f[i]| - 1])
    && |f[i + 1]| > 0 && AllWord(f[i + 1])
    && |f[i + 2]| > 0 && IsWordChar(f[i + 2][0])
  }

  /** The first index from `from` on where the category patterns match. */
  function FindCategory(f: seq<string>, from: nat): (r: Option<nat>)
    ensures r.Some? ==> from <= r.value && CategoryAt(f, r.value)
    ensures forall j: nat | from <= j && (r.None? || j < r.value) :: !CategoryAt(f, j)
    decreases |f| - from
  {
    if from + 2 >= |f| then None
    else if CategoryAt(f, from) then Some(from)
    else FindCategory(f, from + 1)
  }

  /** Line 63's `(\w+)`: the word run that opens field `i + 2`. */
  function TrainNumber(f: seq<string>, i: nat): (t: string)
    requires CategoryAt(f, i)
    ensures |t| > 0 && t[0] == f[i + 2][0]
    ensures AllWord(t) && StartsWith(f[i + 2], t)
    ensures |t| == |f[i + 2]| || !IsWordChar(f[i + 2][|t|])
  {
    WordPrefix(f[i + 2])
  }

  /** Line 56's `(\w)`: the first character of field `i + 2`, which is
      also the first letter of the train number of line 63. */
  function CategoryChar(f: seq<string>, i: nat): (c: char)
    requires CategoryAt(f, i)
    ensures IsWordChar(c)
    ensures c == TrainNumber(f, i)[0]
  {
    f[i + 2][0]
  }

  // ---------------------------------------------------------------------
  // Origin and destination station codes (tickets.py line 58)

  /** `\d+:` at the start of a field: a run of digits followed by a colon. */
  predicate StartsWithHour(s: string) {
    var n := DigitRun(s);
    0 < n < |s| && s[n] == ':'
  }

  /** The station pattern matches with its `\d+:` at the start of field `j`:
      field `j - 2` ends in a word character, field `j - 1` is a non-empty
      word. */
  predicate StationsAt(f: seq<string>, j: nat) {
    2 <= j < |f|
    && |f[j - 2]| > 0 && IsWordChar(f[j - 2][|f[j - 2]| - 1])
    && |f[j - 1]| > 0 && AllWord(f[j - 1])
    && StartsWithHour(f[j])
  }

  /** The first index from `from` on where the station pattern matches. */
  function FindStations(f: seq<string>, from: nat): (r: Option<nat>)
    ensures r.Some? ==> from <= r.value && StationsAt(f, r.value)
    ensures forall j: nat | from <= j && (r.None? || j < r.value) :: !StationsAt(f, j)
    decreases |f| - from
  {
    if from >= |f| then None
    else if StationsAt(f, from) then Some(from)
    else FindStations(f, from + 1)
  }

  /** Group 1: the leftmost `\w+` that reaches the delimiter, i.e. the
      longest word suffix of field `j - 2`. */
  function Origin(f: seq<string>, j: nat): (code: string)
    requires StationsAt(f, j)
    ensures 0 < |code| <= |f[j - 2]| && AllWord(code)
    ensures code == f[j - 2][|f[j - 2]| - |code|..]
    ensures |code| == |f[j - 2]| || !IsWordChar(f[j - 2][|f[j - 2]| - |code| - 1])
  {
    WordSuffix(f[j - 2])
  }

  /** Group 2: the whole of field `j - 1`. */
  function Destination(f: seq<string>, j: nat): (code: string)
    requires StationsAt(f, j)
    ensures |code| > 0 && AllWord(code)
  {
    f[j - 1]
  }

  // ---------------------------------------------------------------------
  // Departure, arrival and duration (tickets.py lines 68-70)

  /** A clock text `\d+:\d+`: digits, one colon, digits. */
  predicate IsClock(t: string) {
    var n := DigitRun(t);
    0 < n && n + 1 < |t| && t[n] == ':' && AllDigits(t[n + 1..])
  }

  /** `\|(\d+:\d+)` can match at the start of this field. */
  predicate IsTimeField(s: string) {
    StartsWithHour(s) && DigitRun(s[DigitRun(s) + 1..]) > 0
  }

  /** The captured `\d+:\d+`: the longest clock text opening the field. */
  function TimeText(s: string): (t: string)
    requires IsTimeField(s)
    ensures IsClock(t) && StartsWith(s, t)
    ensures ':' in t
    ensures |t| == |s| || !IsDigit(s[|t|])
  {
    var n := DigitRun(s);
    var m := DigitRun(s[n + 1..]);
    var t := s[..n + 1 + m];
    assert t[..n] == s[..n] && t[n + 1..] == s[n + 1..][..m];
    assert DigitRun(t) == n by { DigitRunPrefix(s, t); }
    t
  }

  /** A prefix of `s` that stops at or after the end of its opening digit
      run has the same opening digit run. */
  lemma {:induction false} DigitRunPrefix(s: string, t: string)
    requires StartsWith(s, t) && DigitRun(s) < |t|
    ensures DigitRun(t) == DigitRun(s)
    decreases |t|
  {
    if |t| > 0 && IsDigit(s[0]) {
      assert s[1..][..|t| - 1] == t[1..];
      DigitRunPrefix(s[1..], t[1..]);
    }
  }

  /** A field that is exactly a clock text is a clock field, and the
      capture is the whole field. */
  lemma ClockIsTimeField(t: string)
    requires IsClock(t)
    ensures IsTimeField(t) && TimeText(t) == t
  {
    var n := DigitRun(t);
    var rest := t[n + 1..];
    assert DigitRun(rest) == |rest|;
    assert t[..n + 1 + |rest|] == t;
  }

  /** The indices, in increasing order, of the clock fields from `k` on. */
  function ClockFields(f: seq<string>, k: nat): (ps: seq<nat>)
    ensures forall j | 0 <= j < |ps| :: k <= ps[j] < |f| && IsTimeField(f[ps[j]])
    ensures forall j, l | 0 <= j < l < |ps| :: ps[j] < ps[l]
    decreases |f| - k
  {
    if k >= |f| then []
    else (if IsTimeField(f[k]) then [k] else []) + ClockFields(f, k + 1)
  }

  /** No clock field from `k` on is missed. */
  lemma {:induction false} ClockFieldsComplete(f: seq<string>, k: nat)
    ensures forall m | k <= m < |f| :: m in ClockFields(f, k) <==> IsTimeField(f[m])
    decreases |f| - k
  {
    if k < |f| {
      ClockFieldsComplete(f, k + 1);
      var ps := ClockFields(f, k + 1);
      assert ClockFields(f, k) == (if IsTimeField(f[k]) then [k] else []) + ps;
      assert k !in ps;
    }
  }

  /** Every match of `\|(\d+:\d+)` in fields `k` onwards, in order. Field 0
      is never matched since no delimiter precedes it; see `Times`. */
  function TimesFrom(f: seq<string>, k: nat): (ts: seq<string>)
    ensures k <= |f| ==> |ts| <= |f| - k
    ensures k >= |f| ==> ts == []
    ensures forall m | 0 <= m < |ts| :: IsClock(ts[m]) && ':' in ts[m]
    decreases |f| - k
  {
    if k >= |f| then []
    else (if IsTimeField(f[k]) then [TimeText(f[k])] else []) + TimesFrom(f, k + 1)
  }

  /** The matches from `k` on are the captures of the clock fields from `k`
      on, one each and in field order. */
  lemma {:induction false} TimesFromClockFields(f: seq<string>, k: nat)
    ensures |TimesFrom(f, k)| == |ClockFields(f, k)|
    ensures forall m | 0 <= m < |TimesFrom(f, k)| :: TimesFrom(f, k)[m] == TimeText(f[ClockFields(f, k)[m]])
    decreases |f| - k
  {
    if k < |f| {
      TimesFromClockFields(f, k + 1);
      var ts, ps := TimesFrom(f, k + 1), ClockFields(f, k + 1);
      if IsTimeField(f[k]) {
        var ts0, ps0 := [TimeText(f[k])] + ts, [k] + ps;
        assert TimesFrom(f, k) == ts0 && ClockFields(f, k) == ps0;
        forall m | 0 <= m < |ts0|
          ensures ts0[m] == TimeText(f[ps0[m]])
        {
          if m > 0 {
            assert ts0[m] == ts[m - 1] && ps0[m] == ps[m - 1];
          }
        }
      } else {
        assert TimesFrom(f, k) == ts;
        assert ClockFields(f, k) == ps;
      }
    }
  }

  /** All matches of `\|(\d+:\d+)` in the record: one per clock field
      after the first field, in field order. */
  function Times(f: seq<string>): (ts: seq<string>)
    ensures |f| > 0 ==> |ts| < |f|
    ensures forall m | 0 <= m < |ts| :: IsClock(ts[m]) && ':' in ts[m]
    ensures |ts| == |ClockFields(f, 1)|
    ensures forall m | 0 <= m < |ts| :: ts[m] == TimeText(f[ClockFields(f, 1)[m]])
  {
    TimesFromClockFields(f, 1);
    TimesFrom(f, 1)
  }

  /** The first time match comes from the first time field at or after `k`. */
  lemma {:induction false} TimesFromFirst(f: seq<string>, k: nat, t: nat)
    requires k <= t < |f| && IsTimeField(f[t])
    requires forall m | k <= m < t :: !IsTimeField(f[m])
    ensures |TimesFrom(f, k)| > 0 && TimesFrom(f, k)[0] == TimeText(f[t])
    decreases t - k
  {
    if k < t {
      TimesFromFirst(f, k + 1, t);
      assert !IsTimeField(f[k]);
      assert TimesFrom(f, k) == TimesFrom(f, k + 1);
    } else {
      assert TimesFrom(f, k) == [TimeText(f[k])] + TimesFrom(f, k + 1);
    }
  }

  /** Fields that are not clock fields contribute no clock match: the
      matches from `k` on are those from `t` on. */
  lemma {:induction false} TimesFromSkip(f: seq<string>, k: nat, t: nat)
    requires k <= t
    requires forall m | k <= m < t && m < |f| :: !IsTimeField(f[m])
    ensures TimesFrom(f, k) == TimesFrom(f, t)
    decreases t - k
  {
    if k < t {
      TimesFromSkip(f, k + 1, t);
    }
  }

  // ---------------------------------------------------------------------
  // Seat availability (tickets.py lines 71-78)

  /** The eight seat columns in row order (business, first, second, deluxe
      soft sleeper, soft sleeper, hard sleeper, hard seat, standing): the
      number of fields each value lies after the 8-digit anchor field. */
  const SeatOffsets: seq<nat> := [18, 17, 16, 7, 9, 14, 15, 12]

  predicate EndsWithEightDigits(s: string) {
    |s| >= 8 && AllDigits(s[|s| - 8..])
  }

  /** `(\d){8}\|(\w*\|){k}(\w*)` matches with its digits ending field `a`:
      field `a` ends in eight digits, fields `a + 1` to `a + k` are words
      (possibly empty), and a field `a + k + 1` follows. */
  predicate AnchorAt(f: seq<string>, a: nat, k: nat) {
    a + k + 1 < |f|
    && EndsWithEightDigits(f[a])
    && forall m | a < m <= a + k :: AllWord(f[m])
  }

  /** The first anchor from `from` on for offset `k`. */
  function FindAnchor(f: seq<string>, k: nat, from: nat): (r: Option<nat>)
    ensures r.Some? ==> from <= r.value && AnchorAt(f, r.value, k)
    ensures forall a: nat | from <= a && (r.None? || a < r.value) :: !AnchorAt(f, a, k)
    decreases |f| - from
  {
    if from + k + 1 >= |f| then None
    else if AnchorAt(f, from, k) then Some(from)
    else FindAnchor(f, k, from + 1)
  }

  /** The last group `(\w*)`: the word run opening field `a + k + 1`. */
  function SeatValue(f: seq<string>, a: nat, k: nat): (v: string)
    requires AnchorAt(f, a, k)
    ensures AllWord(v) && StartsWith(f[a + k + 1], v)
    ensures |v| == |f[a + k + 1]| || !IsWordChar(f[a + k + 1][|v|])
  {
    WordPrefix(f[a + k + 1])
  }

  /** The seat value `offset` fields after the first anchor, if any:
      `findall(...)[0][-1]`, absent when the pattern matches nowhere. */
  function SeatColumn(f: seq<string>, offset: nat): (r: Option<string>)
    ensures r.Some? ==> AllWord(r.value)
  {
    match FindAnchor(f, offset, 0)
    case None => None
    case Some(a) => Some(SeatValue(f, a, offset))
  }

  /** A seat column is absent exactly when its pattern has no anchor
      anywhere; a present value comes from the leftmost anchor. */
  lemma SeatColumnLeftmost(f: seq<string>, offset: nat)
    ensures SeatColumn(f, offset).None? <==> forall a: nat :: !AnchorAt(f, a, offset)
    ensures SeatColumn(f, offset).Some? ==>
      exists a: nat ::
        && AnchorAt(f, a, offset)
        && (forall b: nat | b < a :: !AnchorAt(f, b, offset))
        && SeatColumn(f, offset).value == SeatValue(f, a, offset)
  {
    if SeatColumn(f, offset).Some? {
      var a := FindAnchor(f, offset, 0).value;
      assert AnchorAt(f, a, offset);
    }
  }

  /** The seat values for `offsets`, extracted in order; the first offset
      whose pattern has no match aborts with that offset. */
  function Seats(f: seq<string>, offsets: seq<nat>): (r: Result<seq<string>>)
    ensures r.Ok? <==> forall c | 0 <= c < |offsets| :: SeatColumn(f, offsets[c]).Some?
    ensures r.Ok? ==> |r.value| == |offsets|
    ensures r.Ok? ==> forall c | 0 <= c < |offsets| :: r.value[c] == SeatColumn(f, offsets[c]).value
    ensures r.Err? ==> exists c | 0 <= c < |offsets| ::
      r.error == NoMatch(SeatPattern(offsets[c])) && SeatColumn(f, offsets[c]).None?
      && forall d | 0 <= d < c :: SeatColumn(f, offsets[d]).Some?
  {
    if |offsets| == 0 then Ok([])
    else match SeatColumn(f, offsets[0])
      case None => Err(NoMatch(SeatPattern(offsets[0])))
      case Some(v) =>
        var rest :- Seats(f, offsets[1..]);
        Ok([v] + rest)
  }

  /** The seat values are determined by the columns: when every offset's
      column holds a value, those values in order are the result. */
  lemma SeatsFromColumns(f: seq<string>, offsets: seq<nat>, values: seq<string>)
    requires |values| == |offsets|
    requires forall c | 0 <= c < |offsets| :: SeatColumn(f, offsets[c]) == Some(values[c])
    ensures Seats(f, offsets) == Ok(values)
  {
    var r := Seats(f, offsets);
    assert r.Ok?;
    assert r.value == values;
  }
}
