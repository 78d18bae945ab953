# NetworkAnalyser in Dafny

A model of the deterministic core of `NetworkAnalyser.py`, a WiFi monitor that
polls the platform's wireless tools, estimates a distance for each access point
from its signal, connects to the strongest network and plots signal histories.
The platform is an input tag (`Windows`, `Linux`, `Darwin`, `Unsupported`), and
command output is a given string.

The files:

- `wrappers.dfy`: `Option`.
- `text.dfy`: Python's whitespace class, `\d`, `str.strip()`, and `int()` on
  digit strings.
- `signal_model.dfy`: `percentage_to_dbm` over reals. Also the exponent
  `(P0 - Pr) / (10 * N)` of `calculate_distance` and its `None` on `N = 0`.
- `parser.dfy`: `re.findall(r"(\S+)\s+(\d+)", out)` as the left-to-right
  scanner the regular-expression engine runs. It works in two steps:
  - `MatchAt` tries the pattern at one position.
  - `Scan` walks the table of attempts. After a match it resumes at the match's
    end, otherwise one character on.
- `layout.dfy`: what that scanner makes of tabular listings. This covers
  records, separators, the `nmcli` header and `airport -s` rows.
- `discovery.dfy`: `all_Networks`, the `max(..., key=int(x[1]))` selection and
  the connect step of `discover_and_connect_strongest_network`.
- `adapter.dfy`: the three connect-command forms and their parser.
- `readings.dfy`: the per-reading loop (strip, `int`, dBm, distance; skip on
  `None`). The loops of `display_signal_strength`, `discover_wifi_networks`
  and `discover_and_connect_strongest_network` share this body. The file also
  holds the unit-aware conversion the current-connection loop evidently
  intends.
- `time_series.dfy`: the two plotting loops' accumulators. Each is a class whose
  `Cycle` method updates its `seq`/`map` fields in place.

Where the program's specification and its code differ, the model follows the
code:

- On an unsupported platform `all_Networks` fails with an uncaught name error.
  It does not fail with a dedicated platform error.
- An empty network list makes the connect flow print a message and do nothing.
  It does not raise.
- On Linux and macOS, the current-connection loop converts dBm readings as
  percentages (see Findings).

TimeSeries.AlignedAfterCycleIff also shows what the all-networks plot does with
a network first seen after the first scan, or one that vanishes or shows up
twice: its list no longer matches `times` in length. Line 265 plots each list
against `times`, which then fails, and the handler at line 279 ends the plot.

## Model

| member | source | states |
|---|---|---|
| SignalModel.PercentageToDbm | NetworkAnalyser.py:43-51 | the result lies on the line through (0, -85) and (100, -20), and inputs 0..100 map into [-85, -20] |
| SignalModel.PercentageToDbmEndpoints | NetworkAnalyser.py:45-47 | 0 % is -85 dBm and 100 % is -20 dBm |
| SignalModel.PercentageToDbmIncreasing | NetworkAnalyser.py:47 | strictly increasing in the percentage |
| SignalModel.DistanceExponent | NetworkAnalyser.py:53-59 | fails (None) exactly when N = 0; otherwise `10*N*e = P0 - Pr` |
| SignalModel.ExponentInvertsPathLoss | NetworkAnalyser.py:55 | the exponent recovers the distance from the power that log-distance path loss predicts at that distance |
| SignalModel.ExponentAtReference | NetworkAnalyser.py:55 | Pr = P0 gives exponent 0, a distance of one metre |
| SignalModel.ExponentPositiveIff | NetworkAnalyser.py:55 | for N > 0 the distance exceeds one metre iff Pr < P0 |
| SignalModel.ExponentDecreasing | NetworkAnalyser.py:55 | for N > 0 a weaker signal gives a larger distance |
| Text.TrimEnd | NetworkAnalyser.py:154 | the result is a prefix, only whitespace is removed, and it does not end in whitespace |
| Text.StripSlice | NetworkAnalyser.py:154 | `strip()` keeps a slice with only whitespace around it and none at either end |
| Text.StripIdentityIff | NetworkAnalyser.py:216 | `strip()` changes nothing iff neither end is whitespace |
| Text.StripIdempotent | NetworkAnalyser.py:180 | stripping twice equals stripping once |
| Text.StripToken | NetworkAnalyser.py:205 | a token without whitespace is its own `strip()` |
| Text.Strip | NetworkAnalyser.py:154 | `str.strip()`, defined as the leading whitespace run cut, then `rstrip()`; characterised by StripSlice and the Strip lemmas |
| Text.DigitsValue | NetworkAnalyser.py:181 | `int()` of a digit string, most significant digit first; pinned down by the `str()` round trips below |
| Text.Decimal | NetworkAnalyser.py:181 | `str(v)` of a natural number, an independent definition of the decimal digits: always a non-empty digit string |
| Text.DecimalValue | NetworkAnalyser.py:181 | `int(str(v)) == v` for every natural number |
| Text.DecimalOfValue | NetworkAnalyser.py:181 | `str(int(s)) == s` for every digit string without a leading zero |
| Text.DigitsPositive | NetworkAnalyser.py:181 | a digit string not led by `0` has a positive value |
| Text.DecimalSnoc | NetworkAnalyser.py:181 | the digits of `10*w + d` are those of `w` followed by the digit `d`, for positive `w` |
| Text.NumeralOf | NetworkAnalyser.py:70 | `str(v)` of an integer is something the `(-?\d+)` captures can hold |
| Text.NumeralValueOf | NetworkAnalyser.py:70 | `int(str(v)) == v` for every integer, negative ones included |
| Text.NumeralOfValue | NetworkAnalyser.py:70 | `str(int(s)) == s` for every signed numeral written without a leading zero or `-0` |
| Text.LeadingZeroIgnored | NetworkAnalyser.py:181 | like `int()`, a leading zero does not change the value |
| Parser.FindAll | NetworkAnalyser.py:159 | `re.findall`: the groups of the scan of the attempts table from position 0; characterised by the MatchAt, Scan and FindAll lemmas |
| Parser.MatchAt | NetworkAnalyser.py:159 | a match at i starts at i, its parts are strictly ordered and inside the text, and no digit follows it |
| Parser.MatchAtSound | NetworkAnalyser.py:159 | a match is a token, whitespace and digits, followed by no digit |
| Parser.MatchAtComplete | NetworkAnalyser.py:159 | every way the pattern can match at i is found, with the same token and whitespace and the longest digit run |
| Parser.MatchAtIs | NetworkAnalyser.py:159 | the match at i is exactly the token, whitespace and maximal digit run found there |
| Parser.Attempts | NetworkAnalyser.py:159 | the attempts table has one entry per position, and each entry starts there and lies inside the text |
| Parser.Scan | NetworkAnalyser.py:159 | every match of a scan from i starts at or after i and lies inside the text |
| Parser.ScanFound | NetworkAnalyser.py:159 | every match the scan reports is the pattern's match at its start |
| Parser.ScanOrdered | NetworkAnalyser.py:159 | the matches come in text order and do not overlap |
| Parser.ScanCover | NetworkAnalyser.py:159 | no position where the pattern matches is skipped: it lies inside a reported match |
| Parser.ScanEmptyIff | NetworkAnalyser.py:159 | a scan from i is empty iff the pattern matches nowhere from i on |
| Parser.ScanSkip | NetworkAnalyser.py:159 | positions without a match are passed over |
| Parser.ScanShift | NetworkAnalyser.py:159 | a table that holds another moved by d is scanned to the same matches, moved by d |
| Parser.FindAllWellFormed | NetworkAnalyser.py:159-161 | every pair is a non-empty whitespace-free SSID and a non-empty digit string |
| Parser.NoPairsIffNoPattern | NetworkAnalyser.py:159-164 | no pairs iff no token is followed by whitespace and a digit |
| Parser.FindAllShift | NetworkAnalyser.py:159 | the scan after position d of s finds what a scan of the rest alone finds |
| Parser.FindAllFromSome | NetworkAnalyser.py:159 | at a match, its groups come first and the scan resumes right after the digits |
| Parser.FindAllFromNone | NetworkAnalyser.py:159 | where the pattern does not match, the scan moves one character on |
| Parser.FindAllFromSkip | NetworkAnalyser.py:159 | a stretch without matches is passed over |
| Parser.ScanPrefix | NetworkAnalyser.py:159 | extending a table with non-matching positions does not change the scan |
| Layout.HeadRecord | NetworkAnalyser.py:159 | text that opens with token, whitespace and digits (no digit after) yields that pair, then the rest scanned alone |
| Layout.SkipSpaces | NetworkAnalyser.py:159 | leading whitespace yields nothing |
| Layout.SkipWord | NetworkAnalyser.py:159 | a word followed by whitespace and a non-digit yields nothing |
| Layout.RenderRoundTrip | NetworkAnalyser.py:159 | single-space rows, one per line, SSID space signal, are parsed back exactly, in order |
| Layout.ListingRoundTrip | NetworkAnalyser.py:142-159 | an `nmcli -f SSID,SIGNAL` listing, written as single-space rows under its header, parses back to its rows when the first SSID does not start with a digit |
| Layout.HeaderCaptured | NetworkAnalyser.py:142-159 | when the first SSID starts with a digit, the header `SIGNAL` is returned as an SSID and the rows do not come back |
| Layout.RowsRoundTrip | NetworkAnalyser.py:142-159 | with the header line dropped, every listing of well-formed rows parses back exactly |
| Layout.AfterFirstLineOf | NetworkAnalyser.py:159 | dropping the first line of `line + "\n" + body` leaves `body` |
| Layout.TrailingIgnored | NetworkAnalyser.py:154-159 | trailing whitespace changes nothing in what is found |
| Layout.StripIgnored | NetworkAnalyser.py:154-159 | stripping the output before the scan changes nothing in what is found |
| Layout.ResumeInsideToken | NetworkAnalyser.py:159 | the scan resumes right after the digits, inside a token: `x 12abc 34` gives two pairs |
| Layout.SpacedSsidLosesWords | NetworkAnalyser.py:159 | of an SSID with a space only the last word is kept: `My Net 70` gives `("Net", "70")` |
| Layout.AirportRow | NetworkAnalyser.py:148-161 | an `airport -s` row whose BSSID begins with a letter gives (RSSI, channel) as its only pair, never the RSSI as the signal |
| Layout.AirportRowDigitBssid | NetworkAnalyser.py:148-161 | an `airport -s` row whose BSSID begins with digits then `:` gives (SSID, those digits) first, and then (RSSI, channel) |
| Layout.BssidRest | NetworkAnalyser.py:148-161 | the `:`-led remainder of such a BSSID yields nothing, then the (RSSI, channel) pair |
| Discovery.AllNetworks | NetworkAnalyser.py:130-169 | raises exactly on an unsupported platform; Windows returns its pairs; Linux and macOS return the scan of the output |
| Discovery.AllNetworksEmptyIff | NetworkAnalyser.py:159-169 | on Linux and macOS the result is `[]` iff no token is followed by whitespace and a digit |
| Discovery.AllNetworksWellFormed | NetworkAnalyser.py:159-161 | on Linux and macOS every network has a whitespace-free SSID and a digit-string signal |
| Discovery.Strongest | NetworkAnalyser.py:214 | the index is in range, its signal is at least every other, and every earlier signal is strictly smaller (Python's first maximum) |
| Discovery.StrongestUnique | NetworkAnalyser.py:214 | any index that is maximal and first among the maximal ones is the one selected |
| Discovery.ConnectStrongest | NetworkAnalyser.py:214-224 | a command exists iff there are networks and the platform is supported, and it parses back to the stripped SSID of the strongest |
| Adapter.ConnectCommand | NetworkAnalyser.py:219-224 | none iff unsupported; parses back to its platform and the verbatim SSID; two quotes more than the SSID holds |
| Adapter.ParseConnectForm | NetworkAnalyser.py:219-224 | each platform's command form is recognised as that platform and no other, with the SSID recovered |
| Adapter.FormChar | NetworkAnalyser.py:219-224 | a command of a platform's form agrees with that platform's prefix character by character |
| Adapter.NoQuoteInPrefix | NetworkAnalyser.py:220-224 | no command prefix contains a quote |
| Adapter.CountQuotes | NetworkAnalyser.py:220-224 | the SSID is inserted unescaped: the command holds exactly two quotes more than the SSID |
| Readings.EstimateOf | NetworkAnalyser.py:179-187 | a reading is skipped iff N = 0; otherwise it keeps the stripped SSID and the `int` signal |
| Readings.EstimateOfInverts | NetworkAnalyser.py:182-185 | the distance is the one at which path loss predicts the reading's dBm |
| Readings.EstimateAll | NetworkAnalyser.py:179-188 | the loop shows the estimates not skipped, in reading order |
| Readings.KeptAll | NetworkAnalyser.py:183-187 | when nothing fails, the kept estimates are the outcomes one for one, in order |
| Readings.KeptNone | NetworkAnalyser.py:183-187 | when everything fails, nothing is kept |
| Readings.EstimatesKeepAll | NetworkAnalyser.py:179-188 | with N != 0 there is exactly one estimate per reading, in order |
| Readings.EstimatesSkipAll | NetworkAnalyser.py:179-188 | with N = 0 every reading is skipped |
| Readings.DbmReadMisread | NetworkAnalyser.py:69-73 | as written, a Linux/macOS reading of -69 dBm, the reference power, gets exponent 3.0425 instead of 0 |
| Readings.CurrentEstimate | NetworkAnalyser.py:69-76 | the corrected loop body: skipped iff N = 0; otherwise the exponent inverts path loss for the reading converted by its unit (helper `Rssi`: a percentage goes through `percentage_to_dbm`, a dBm value is already a power) |
| Readings.CurrentEstimateAtReference | NetworkAnalyser.py:67-73 | converted by its unit, a reading at the reference power is one metre away on every platform |
| Readings.CurrentEstimateWindows | NetworkAnalyser.py:69-76 | on Windows the corrected conversion is what the source does |
| TimeSeries.Values | NetworkAnalyser.py:105 | one `int` signal per reading |
| TimeSeries.SignalHistory.constructor | NetworkAnalyser.py:95-96 | both lists start empty |
| TimeSeries.SignalHistory.Cycle | NetworkAnalyser.py:100-108 | each reading appends its time and its signal, so the lists stay equally long; an empty scan changes nothing |
| TimeSeries.Record | NetworkAnalyser.py:255-259 | the dictionary after the scan's networks are added in order; characterised by RecordKeys, RecordSeries and SeriesUnchanged |
| TimeSeries.Add | NetworkAnalyser.py:257-259 | adding a reading adds exactly its unstripped SSID as a key |
| TimeSeries.NetworkHistory.constructor | NetworkAnalyser.py:243-244 | no times and an empty dictionary |
| TimeSeries.NetworkHistory.Cycle | NetworkAnalyser.py:248-259 | a non-empty scan appends one time and records each network in order; an empty scan changes nothing |
| TimeSeries.RecordKeys | NetworkAnalyser.py:257-258 | the keys grow by exactly the scan's unstripped SSIDs |
| TimeSeries.RecordSeries | NetworkAnalyser.py:255-259 | each SSID's list grows by that SSID's signals in scan order |
| TimeSeries.SsidsSnoc | NetworkAnalyser.py:255 | the SSIDs of a scan are those of its first part plus its last one |
| TimeSeries.SignalsOfAbsent | NetworkAnalyser.py:255-259 | a scan holds no signals for an SSID it does not contain |
| TimeSeries.SeriesUnchanged | NetworkAnalyser.py:255-259 | an SSID absent from the scan keeps its key status and its list |
| TimeSeries.AlignedAfterCycleIff | NetworkAnalyser.py:252-265 | every list stays as long as `times` iff each known SSID occurs once and each new SSID once per scan so far |
| TimeSeries.AlignedAfterCycleIf | NetworkAnalyser.py:252-265 | such a steady scan keeps every list as long as `times` |
| TimeSeries.AlignedAfterCycleOnlyIf | NetworkAnalyser.py:252-265 | if every list stays as long as `times`, the scan was steady |

## Left out

- Running commands, reading their output, byte decoding, dropping `ÿ`, and `platform.system()`. These are I/O. The platform is a parameter, and so is the output.
- The DOTALL non-greedy patterns at lines 16, 22, 28 and 157. Their results depend on Python's backtracking across lines. The current-connection readings and the Windows scan pairs are therefore inputs, and `read_data_from_cmd` is not modelled beyond them.
- The `10 **` power in `calculate_distance`. Only its exponent is modelled; the distance is `10 ** exponent` metres.
- Float rounding, overflow and non-finite results. Reals stand in for floats, so `percentage_to_dbm` never fails and `calculate_distance` fails only for `N = 0`.
- `\d` is ASCII only here; Python's `\d` also takes other Unicode decimal digits. `\s` and `strip()` use Python's whitespace set.
- Printing, `input`, `time.sleep`, `plt` drawing, `KeyboardInterrupt` handling and the `main` menu. These are UI and timing.
- Elapsed times come from `time.time()`. They are inputs to the `Cycle` methods.
- Discovery.ConnectStrongest: the shell run of the command by `subprocess.call` is left out; only the command text is produced.
- The `int(signal.strip())` of lines 181, 206 and 256 is `int(signal)` here. Signals reach it as numerals without whitespace, so the strip changes nothing.
- Rows of the `nmcli` listing are written with a single space between the columns (Layout.Render). `nmcli` pads its columns with runs of spaces; Layout.HeadRecord and Layout.SkipWord take any whitespace run, but the listing round trips are stated for single-space rows only.
- The loops at lines 69-76, 179-188 and 204-213 only print their estimates; the printed text and its `:.2f` rounding are left out.

## Findings

| source | as written | input that shows it | evidently intended | confidence | as-written member | corrected member |
|---|---|---|---|---|---|---|
| NetworkAnalyser.py:70 | the current-connection loop sends every reading through `percentage_to_dbm`, but `iwconfig` and `airport -I` report dBm | a Linux reading `-69` equal to `P0` gives exponent 3.0425, about 1100 m, instead of 1 m | dBm readings used as `Pr` directly; percentages converted | not executed | Readings.DbmReadMisread | Readings.CurrentEstimate |
| NetworkAnalyser.py:159 | the scan runs over the `nmcli` header line too | header `SSID SIGNAL` followed by a row whose SSID starts with a digit, such as `5G 70`: `SIGNAL` is captured as an SSID with signal `5` | the header line skipped before the scan | not executed | Layout.HeaderCaptured | Layout.FindAllRows |
