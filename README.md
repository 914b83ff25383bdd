# Train collection of the command-line ticket viewer, in Dafny

The viewer asks the 12306 schedule service for the trains between two
stations on a date and prints them as a table. Its one piece of logic is
`TrainsCollection` in `2-tickets/tickets.py`. It holds the raw records, a map
from station codes to station names, and the string of requested category
letters. It does three things:

- `header`: the twelve column names.
- `geturation`: turns a clock text `HH:MM` into a Chinese duration, e.g.
  `"02:05"` becomes `"2小时05分"` and `"00:45"` becomes `"45分"`.
- `trains`: a generator that walks the raw records in order. Every record
  is first matched for its category letter. A record whose lower-cased
  letter is among the options, and which holds neither `售` (sold) nor
  `停运` (suspended), becomes a 12-entry row: train number, stations,
  times, duration, and eight seat values. The other records yield nothing.
  A pattern without a match or an unknown station code raises an exception,
  and that ends the iteration.

Files:

- `strings.dfy` (module `Strings`): character classes, `Split`/`Join` on
  the `|` delimiter, and the Python string operations the class uses
  (`in`, `startswith`, `replace`, `lower`).
- `records.dfy` (module `Records`): where each regular expression of
  `trains` matches, stated over the record's fields; the error datatype.
- `tickets.dfy` (module `Tickets`): `Header`, `Geturation`, the generator
  protocol (`Collect`), and `TrainsCollection` with its filter, its row
  builder and the `Trains` method.
- `scenarios.dfy` (module `Scenarios`): one record in the service's field
  layout (a G1 train from Beijing to Shanghai), worked through every
  pattern to the row it becomes, plus the same record before its sale
  opens, a station map that lacks the destination, an empty record, and a
  run over several records that stops at the first exception.

How the regular expressions are modelled. The source never splits a record.
It runs `re.findall` over the whole string and takes element `[0]` (or `[1]`,
`[-1]`). No pattern can match `|` inside a `\w`, `\d` or CJK run. So a
pattern's leftmost match is fixed by the first field index where a condition
on that field and its neighbours holds:

- category and train number (lines 56, 63): field `i` ends in a CJK
  character, field `i+1` is a non-empty word, and field `i+2` starts with a
  word character. The letter is the first character of field `i+2`. The
  train number is the word run that opens field `i+2`.
- stations (line 58): field `j` opens with digits and a colon, field `j-1`
  is a non-empty word, and field `j-2` ends in a word character. The origin
  is the longest word suffix of field `j-2`; the destination is field `j-1`.
- times (lines 68-70): every field after the first that opens with
  `digits:digits`, in order.
- seats (lines 71-78): for offset `k`, the first field `a` that ends in
  eight digits, followed by `k` all-word fields and one more field. The
  value is the word run that opens field `a+k+1`. Each offset searches for
  its own anchor, as each `re.findall` does.

`findall(...)[0]` on an empty list raises IndexError, and a missing map key
raises KeyError. Both are modelled as `Err(NoMatch(...))` and
`Err(UnknownStation(code))`. The generator is modelled as a `Run`: the rows
it yielded, plus the exception that stopped it, if any.

Behaviour of the code worth knowing:

- The category pattern matches before the filter, for every record, so a
  record without a category match raises even if the filter would have
  dropped it.
- The train number is the word run opening the second field after the one
  that ends the CJK run, the same field whose first character is the
  category letter.
- The record's letter is lower-cased and then looked up, as a substring,
  in the options string as given.
- The station codes sit before the first field that opens with `digits:`.
  That field need not be a full `HH:MM`.
- An hour part is dropped only when the formatted text opens with `"00"`.
  For a three-digit hour such as `"000:05"` the first four characters of
  `"000小时05分"` are cut, giving `"时05分"`. The service sends two-digit
  hours, so `GeturationReadsClock` assumes two hour digits.

## Model

| member | source | states |
|---|---|---|
| `Strings.Replace` | 2-tickets/tickets.py:45 | `str.replace` for one character: no occurrence of the character survives when the replacement lacks it, and a text without it is unchanged |
| `Strings.ToLower` | 2-tickets/tickets.py:56 | `.lower()` on the category letter: an ASCII capital maps to its small letter (32 code points up), every other character is unchanged |
| `Strings.WordPrefix` | 2-tickets/tickets.py:63 | a greedy `\w+`/`\w*` at a field start takes the longest all-word prefix: it is a prefix, all word characters, and the next character (if any) is not one |
| `Strings.WordSuffix` | 2-tickets/tickets.py:58 | where the leftmost `(\w+)\|` starts: the longest all-word suffix of the field |
| `Strings.DigitRun` | 2-tickets/tickets.py:58 | a greedy `\d+`: the longest run of digits at the start, followed by a non-digit or the end |
| `Strings.StartsWith` | 2-tickets/tickets.py:46-48 | `startswith`: a text only starts with a piece no longer than itself, and then shares its first character |
| `Strings.StartsWithAgrees` | 2-tickets/tickets.py:46-48 | `startswith` holds iff the piece fits and the text agrees with it position by position |
| `Strings.Contains` | 2-tickets/tickets.py:57 | Python's `in` for strings: the empty piece is in every text, and a piece longer than the text never is |
| `Strings.ContainsAt` | 2-tickets/tickets.py:57 | Python's substring test `p in s` holds exactly when `p` occurs at some position of `s` |
| `Strings.ContainsHead` | 2-tickets/tickets.py:57 | a text that contains a non-empty marker holds the marker's first character |
| `Strings.ContainsAround` | 2-tickets/tickets.py:57 | a marker without `\|` occurs in `x\|y` iff it occurs in `x` or in `y`: no occurrence straddles the delimiter |
| `Strings.ContainsJoin` | 2-tickets/tickets.py:57 | the filter's substring test on the whole record holds iff the marker occurs in one of its fields |
| `Strings.JoinSplit` | 2-tickets/tickets.py:54 | cutting a raw record at `\|` loses nothing: joining the fields gives back the record |
| `Strings.SplitJoin` | 2-tickets/tickets.py:54 | the converse: fields without `\|` come back unchanged from splitting their join |
| `Records.FindCategory` | 2-tickets/tickets.py:56 | the category match is at the FIRST field index where the pattern's field conditions hold, or nowhere |
| `Records.TrainNumber` | 2-tickets/tickets.py:63 | the train number is the longest word run opening the field two after the CJK field: non-empty, all word characters, a prefix of that field, and followed by a non-word character or the field's end |
| `Records.CategoryChar` | 2-tickets/tickets.py:56 | line 56's `(\w)` is a word character and is the first letter of line 63's train number |
| `Records.FindStations` | 2-tickets/tickets.py:58 | the station match is at the first field index that opens with `digits:` and has a word-ending field and a word field before it, or nowhere |
| `Records.Origin` | 2-tickets/tickets.py:58-59 | the origin code is the longest word run ending the field two before the `digits:` field: non-empty, a suffix of that field, and preceded by a non-word character or the field's start |
| `Records.Destination` | 2-tickets/tickets.py:58-60 | the destination code is the non-empty word field right before the `digits:` field |
| `Records.TimeText` | 2-tickets/tickets.py:68 | the captured clock is `digits:digits`, opens the field, and cannot be extended by a digit |
| `Records.ClockFields` | 2-tickets/tickets.py:68-70 | the positions from `k` on of the fields where `\|(\d+:\d+)` can match: in range, each a clock field, strictly increasing |
| `Records.ClockFieldsComplete` | 2-tickets/tickets.py:68-70 | every clock field from `k` on is among those positions |
| `Records.TimesFrom` | 2-tickets/tickets.py:68-70 | the clock matches from field `k` on: at most one per field, none past the end, each a `digits:digits` text |
| `Records.TimesFromClockFields` | 2-tickets/tickets.py:68-70 | the matches from field `k` on are exactly the captures of the clock fields from `k` on, one each, in field order |
| `Records.Times` | 2-tickets/tickets.py:68-70 | the record's clock matches, `findall`'s list: one per clock field after the first field, in field order, each the capture of that field; fewer matches than fields |
| `Records.TimesFromFirst` | 2-tickets/tickets.py:68 | the first clock match (departure) comes from the first clock field after the first field |
| `Records.TimesFromSkip` | 2-tickets/tickets.py:68-70 | fields that are not clock fields add no clock match: the matches from field `k` on are those from the next clock field on |
| `Records.ClockIsTimeField` | 2-tickets/tickets.py:68 | a field that is exactly `digits:digits` is matched whole |
| `Records.FindAnchor` | 2-tickets/tickets.py:71-78 | for a seat offset, the first field ending in eight digits that is followed by that many all-word fields and one more field |
| `Records.SeatValue` | 2-tickets/tickets.py:71-78 | the seat value is the longest word run opening the field `offset + 1` after the anchor: a prefix of that field, followed by a non-word character or the field's end |
| `Records.SeatColumn` | 2-tickets/tickets.py:71-78 | `findall(...)[0][-1]` for one offset: a present value is all word characters |
| `Records.SeatColumnLeftmost` | 2-tickets/tickets.py:71-78 | a seat column is absent iff its pattern has no anchor anywhere; a present value is the one at the leftmost anchor |
| `Records.Seats` | 2-tickets/tickets.py:71-78 | the eight seat values succeed iff every offset's pattern matches; then each entry is that offset's value in order; otherwise the error names the first offset without a match |
| `Records.SeatsFromColumns` | 2-tickets/tickets.py:71-78 | the converse: when every offset's pattern yields a value, the eight cells are exactly those values in order |
| `Tickets.HeaderNames` | 2-tickets/tickets.py:31 | the header holds twelve names, each non-empty and free of spaces, as splitting a space-separated line gives |
| `Tickets.TwoLines` | 2-tickets/tickets.py:65-69 | a two-line cell cut at its newlines gives back the magenta top line and the blue bottom line, when neither text holds a newline |
| `Tickets.Geturation` | 2-tickets/tickets.py:44-50 | the formatted duration never holds a colon |
| `Tickets.TrimHours` | 2-tickets/tickets.py:46-50 | the early returns only cut characters from the front: the result is a suffix of the text |
| `Tickets.GeturationReadsClock` | 2-tickets/tickets.py:44-50 | for every two-digit hour `h` and digit minutes `m`, `h:m` formats as the minutes plus `分`, preceded by `h` (one leading zero dropped) plus `小时` unless `h` is `00` |
| `Tickets.GeturationZeroHours` | 2-tickets/tickets.py:44-47 | `00:MM` formats as `MM分`: the hour part vanishes |
| `Tickets.GeturationDropsOneZero` | 2-tickets/tickets.py:44-49 | `0H:MM` with `H` not zero formats as `H小时MM分`: exactly one leading character is cut |
| `Tickets.GeturationKeepsHours` | 2-tickets/tickets.py:45-50 | without a leading zero the result is the input with each colon replaced by `小时`, plus `分` |
| `Tickets.GeturationEndsWithMinutes` | 2-tickets/tickets.py:44-50 | for every input holding a colon the result is non-empty and ends with `分` |
| `Tickets.GeturationExamples` | 2-tickets/tickets.py:44-50 | `00:45` gives `45分`, `02:05` gives `2小时05分`, `12:30` gives `12小时30分` |
| `Tickets.Collect` | 2-tickets/tickets.py:53-80 | a generator that yields at most one row per record yields no more rows than records |
| `Tickets.RowPositions` | 2-tickets/tickets.py:54-57 | the positions of the row-yielding records are in range, strictly increasing, and contain exactly the records that yield a row |
| `Tickets.CollectSucceeds` | 2-tickets/tickets.py:53-80 | iteration ends without an exception iff no record raises |
| `Tickets.CollectRows` | 2-tickets/tickets.py:53-80 | without an exception, the k-th row is the row of the k-th row-yielding record: one row per such record, in input order |
| `Tickets.CollectStops` | 2-tickets/tickets.py:53-80 | an exception is that of the first raising record, and the rows are exactly those yielded before it |
| `Tickets.CollectGrows` | 2-tickets/tickets.py:53-80 | rows yielded after some records stay a prefix of the final rows, and an exception is final |
| `Tickets.TrainsCollection.Category` | 2-tickets/tickets.py:56 | the category letter exists iff the category pattern matches; it is a lower-case word character |
| `Tickets.TrainsCollection.Selects` | 2-tickets/tickets.py:56-57 | a record is kept iff its lower-cased letter exists and is in the options and neither `售` nor `停运` occurs at any position of it |
| `Tickets.TrainsCollection.StationsCell` | 2-tickets/tickets.py:58-66 | no station match raises; an origin, then a destination, absent from the map raises with that code; otherwise the cell is the origin's name above the destination's |
| `Tickets.TrainsCollection.TimeCells` | 2-tickets/tickets.py:67-70 | fewer than two clock matches raise; otherwise departure above arrival, then the last clock formatted, which ends with `分` |
| `Tickets.TrainsCollection.BuildRow` | 2-tickets/tickets.py:58-79 | a row exists iff every cell does; it has as many entries as the header (12), entry 0 is line 63's train number and starts with the category letter, then stations, times, duration and the eight seats; otherwise the first failing cell's exception |
| `Tickets.TrainsCollection.ProcessRecord` | 2-tickets/tickets.py:54-80 | no category match raises; otherwise a record yields a row iff its lower-cased letter is in the options and it holds neither `售` nor `停运`; the row has 12 entries and its train number's lower-cased first letter is the tested category |
| `Tickets.TrainsCollection.SelectedBuildsRow` | 2-tickets/tickets.py:57-80 | a record the filter keeps has a category match and yields the row built from it, or raises that row's first exception |
| `Tickets.TrainsCollection.Outcomes` | 2-tickets/tickets.py:54 | one loop-body outcome per record, in input order |
| `Tickets.TrainsCollection.TrainsKeepSelected` | 2-tickets/tickets.py:54-80 | without an exception, a record yields a row iff the filter keeps it |
| `Tickets.TrainsCollection.TrainsRowsInOrder` | 2-tickets/tickets.py:53-80 | without an exception, the rows correspond one-to-one and in input order to the kept records (positions strictly increase, by `RowPositions`), so there are at most as many rows as records |
| `Tickets.TrainsCollection.Trains` | 2-tickets/tickets.py:52-80 | the loop yields exactly what `Collect` says of the records' outcomes: the kept rows in order, stopping at the first exception |
| `Scenarios.SampleFields` | 2-tickets/tickets.py:54 | the sample record (and the one not on sale) is its fields joined by `\|`, and splitting it gives them back |
| `Scenarios.SampleCategory` | 2-tickets/tickets.py:56 | in the sample the category pattern matches first after `预订`, with letter `G` |
| `Scenarios.SampleStations` | 2-tickets/tickets.py:58 | the first station match is the one whose `digits:` is the departure `09:00`, not the earlier route codes |
| `Scenarios.SampleCodes` | 2-tickets/tickets.py:58-60 | its codes are `BJP` and `SHH` |
| `Scenarios.SampleTimes` | 2-tickets/tickets.py:68-70 | the clock matches are `09:00`, `11:05`, `02:05`, in that order |
| `Scenarios.SampleTimeCells` | 2-tickets/tickets.py:67-70 | the time cells are `09:00` above `11:05`, and the duration `02:05` read as `2小时05分` |
| `Scenarios.SampleSeatValues` | 2-tickets/tickets.py:71-78 | every seat pattern anchors at the date `20161010`; the cells are `5`, `20`, `有` and five empty values |
| `Scenarios.SampleBuildRow` | 2-tickets/tickets.py:61-79 | the sample's row is `G1`, Beijing above Shanghai, departure above arrival, `2小时05分`, then the seat cells |
| `Scenarios.SampleSelected` | 2-tickets/tickets.py:54-80 | a collection asking for `g` with both stations in its map yields that row for the sample |
| `Scenarios.SampleNotRequested` | 2-tickets/tickets.py:56-57 | a collection not asking for `g` yields nothing for it |
| `Scenarios.NotOnSaleSkipped` | 2-tickets/tickets.py:57 | the record whose booking text is `12点起售` yields nothing, whatever the options and the map |
| `Scenarios.UnknownDestination` | 2-tickets/tickets.py:58-66 | a map without `SHH` makes the sample raise a KeyError for `SHH` |
| `Scenarios.EmptyRecordRaises` | 2-tickets/tickets.py:56 | an empty record raises: the category pattern has no match |
| `Scenarios.CollectStopsEarly` | 2-tickets/tickets.py:53-80 | outcomes row, skip, exception, row give one row and that exception |
| `Scenarios.MixedRun` | 2-tickets/tickets.py:53-80 | the sample, the record not on sale, an empty record and the sample again yield one row, then the exception; the second sample is never reached |

## Left out

- `cli` (lines 90-105): argument parsing, the URL, the HTTP request and the
  JSON decoding are I/O over libraries; `available_trains`, `station_map` and
  `options` are the datatype's fields instead.
- `pretty_print` (lines 82-87): table rendering and printing. Since it fills
  the table while iterating, an exception means nothing is printed; the
  model stops at the `Run` value.
- The `stations` module (line 22) is not part of this model; the core does
  not use it. The TLS-warning switch (line 26) is environment setup.
- The colour codes are modelled as the ANSI texts colorama uses for magenta,
  blue and reset; the terminal's rendering of them is not modelled.
- Python regular expressions are not modelled as an engine. The field
  conditions above stand for the leftmost match of each pattern. `\w` is
  taken as ASCII letters and digits, `_` and CJK ideographs U+4E00-U+9FA5;
  `\d` as ASCII digits. Other Unicode letters and digits are not modelled.
- Strings.ToLower: lower-cases ASCII letters only; Python's Unicode case
  mapping of other letters is not modelled.
- `header` (line 31) is the constant `Tickets.Header`. The model writes the
  twelve names out instead of splitting the space-separated line.
- Tickets.HeaderNames: states the shape of the twelve names, not that they
  are what `split()` returns for the line of line 31; comparing the
  43-character text with the joined names is beyond the solver budget.
- `trains` is lazy: a consumer may stop early. The model gives what the
  iteration yields when run to its end or to its first exception; a prefix
  of it is what an early stop sees (`Tickets.CollectGrows`).
