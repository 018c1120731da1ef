# Kiln display: status screen, hex icons and the image demo

A Dafny model of the display side of a kiln controller. It covers the status
screen class for a 128x64 SSD1309 panel (`display.py`) and the demo script that
exercises its icons and animations (`test_image_display.py`).

- `Wrappers.dfy`: an `Option` type.
- `Text.dfy`: the Python string behaviour the display depends on.
  - Decimal and hexadecimal numerals: `str(n)`, `int(s, base)`, `f"{n:02d}"`.
  - `str.split` and `str.join` on one character.
  - The leading-white-space part of `str.strip()`.
  - `startswith` and the slice `s[:n]`.
- `HexIcon.dfy`: `load_icon_from_hex`, written two ways.
  - As functions that state what the decoded icon is.
  - As the method with the source's loops, proved equal to those functions.
  - It also has an encoder for the same text format and proves that decoding an
    encoded icon gives the icon back.
- `Surface.dfy`: the drawing calls made on a canvas, `draw.text` and
  `draw.bitmap`, as values. A screen is the list of calls made inside one canvas.
- `StatusScreen.dfy`: `format_temperature`, `format_time`, `update` and
  `show_message`. The two formatters return the text they build. `update` and
  `show_message` return the draw calls they would make.
- `ImageDemo.dfy`: `test_icons`, `test_logo` and `test_pottery`.
  - Icon files are given as a map from icon name to file text. A name with no
    entry is a missing file.
  - The wall clock is the sequence of readings `time.time()` returns.

Two facts about the code that the model follows as written:

- The pottery play list is `[base] + flames + flames[::-1]`
  (test_image_display.py:125). Its turning point is not merged, so the list
  has `1 + 2k` frames for `k` flames and the last flame is shown twice in a row.
- The profile name is cut to 12 characters only when it is longer than that
  (display.py:129). The example profile "Cone 6 Glaze" (display.py:287) is
  exactly 12 characters, so it is shown whole: `RUNNING - Cone 6 Glaze`.

## Model

| member | source | states |
|---|---|---|
| Text.Render | display.py:74 | `str(n)`: at least one digit, reads back as `n`, a single digit exactly when `n` is below the base, and no leading zero |
| Text.RenderUnique | display.py:74 | `str(n)` is the only decimal numeral for `n` without a leading zero |
| Text.ZeroPadded | display.py:88-90 | `{n:02d}`: the digits read back as `n`, and the width is the larger of the field width and the numeral's own length |
| Text.IntToString | display.py:74-76 | a signed integer's numeral parses back to the same integer; it has a minus sign exactly when the integer is negative, and no leading zero |
| Text.Split | display.py:216 | `split('\n')`: at least one piece, and no piece contains the separator |
| Text.JoinSplit | display.py:224-225 | joining the pieces of a split gives back the original text |
| Text.SplitJoin | display.py:224-225 | splitting a join of separator-free pieces gives back the pieces |
| Text.TrimStartIsSuffix | display.py:224 | what `strip()` removes at the front is white space; what stays is a suffix that does not start with white space |
| Text.Take | display.py:186 | `s[:n]` is a prefix of `s` of length `min(n, len(s))` |
| HexIcon.Span | display.py:215 | a greedy run of digits: all of its characters are digits, and the next one is not |
| HexIcon.DimensionAt | display.py:215-217 | `(\d+)x(\d+)px`, either case for each letter, matched at the start of a string with anything after it, both groups read in decimal; stated by DeclarationAt |
| HexIcon.HeightPart | display.py:215-217 | the `(\d+)px` part after the `x`, read in decimal |
| HexIcon.SearchDimension | display.py:217 | `re.search`: the match at the leftmost position of the line that has one; see NonDigitSkipped and SizeLineDeclares |
| HexIcon.Dimensions | display.py:214-221 | the size of the first line that has a match, comment lines included, or 16x16; stated by DimensionsFirstMatch and DimensionsDefault |
| HexIcon.DimensionsFirstMatch | display.py:216-221 | the first line on which the size pattern matches decides the size; later lines are not read |
| HexIcon.DimensionsDefault | display.py:214 | when no line matches, the size is 16x16 |
| HexIcon.ScanDimensions | display.py:214-221 | the loop with `break` gives exactly the size of the first matching line, or the default |
| HexIcon.IsComment | display.py:224 | `line.strip().startswith('//')` |
| HexIcon.DataLines | display.py:224 | the lines that are not comments, in order; never more lines than the input |
| HexIcon.DataLinesKept | display.py:224 | a line is kept exactly when it is one of the input lines and not a comment |
| HexIcon.HexTokens | display.py:226-228 | `re.findall(r'0x([0-9a-fA-F]+)')` read with `int(_, 16)`; each token uses at least three characters of the text |
| HexIcon.DataTokens | display.py:224-228 | the tokens of the non-comment lines joined with line breaks; see CommentLineIgnored and HexTokensOfList |
| HexIcon.DataLinesAppend | display.py:224 | comment filtering works line by line: filtering a concatenation is concatenating the filtered parts |
| HexIcon.CommentLineIgnored | display.py:224-228 | a line whose stripped text starts with `//` adds no tokens, wherever it sits |
| HexIcon.Reconcile | display.py:231-238 | the byte list has exactly `(w*h)//8` entries; entry `i` is token `i` when there is one, otherwise 0 |
| HexIcon.ExtraTokensIgnored | display.py:237-238 | tokens beyond the needed count never change the byte list |
| HexIcon.TokenHighBitsIgnored | display.py:249 | only the low 8 bits of each token are read, so reducing tokens mod 256 decodes the same pixels |
| HexIcon.TestBit | display.py:249 | `byte_val & (1 << bit) != 0`; see PackByteBits and TokenHighBitsIgnored |
| HexIcon.Unpack | display.py:240-251 | the first `w*h` pixels of the MSB-first bit stream, unlit past the data; it has exactly `w*h` pixels |
| HexIcon.DecodeText | display.py:209-253 | the icon a file's text describes always has `w*h` pixels; its pixels are stated by DecodedPixel |
| HexIcon.Decode | display.py:205-207 | a missing file gives `None`; any file text gives an icon with `w*h` pixels |
| HexIcon.DecodedPixel | display.py:231-251 | pixel `i` is lit exactly when its byte is within `(w*h)//8`, a token exists for it, and bit `7 - i%8` of that token is set |
| HexIcon.LoadIconFromHex | display.py:191-257 | the method with the source's loops returns exactly `Decode` of the file |
| HexIcon.DrawPixels | display.py:241-251 | the MSB-first double loop with its early `break` lights exactly the unpacked bits |
| HexIcon.RowMajor | display.py:247-248 | pixel `k` lands at `(k % w, k // w)` inside the grid, and that position maps back to `k` |
| HexIcon.ByteAndBit | display.py:243-249 | the pixel counter while testing bit `bit` of byte `j` is `8j + 7 - bit` |
| HexIcon.PackByteBits | display.py:244-249 | packing eight pixels MSB first and testing bit `7 - j` gives pixel `j` back |
| HexIcon.UnpackPack | display.py:241-251 | unpacking packed pixels gives back the same pixels |
| HexIcon.HexTokensOfList | display.py:226-228 | a list of `0xHH,` tokens is read back as exactly its bytes |
| HexIcon.TokenEnds | display.py:226-227 | a `0x` token ends at the first non-hex character, and matching resumes after it |
| HexIcon.SizeLineDeclares | display.py:215-224 | the line `// WxHpx` matches the size pattern with `(W, H)` and is a comment line |
| HexIcon.NonDigitSkipped | display.py:217 | `re.search` moves past a leading character that cannot start a match |
| HexIcon.DeclarationAt | display.py:215-217 | digits, `x` or `X`, digits, `p` or `P`, `x` or `X` at the start of a string, followed by anything, are matched with both numbers read in decimal, and the search over the line finds that match |
| HexIcon.DecodeEncode | display.py:191-257 | decoding the encoded text of any icon whose pixel count is a whole number of bytes gives back the same icon |
| StatusScreen.FormatTemperatureReadsBack | display.py:69-76 | `None` shows as `---`; a reading shows as its number then `°F` for scale `f`/`F`, otherwise `°C`, and reads back as exactly that; the number is `IntToString`'s canonical numeral, with no leading zero and no `-0` |
| StatusScreen.FormatTemperature | display.py:69-76 | `---` exactly for a missing reading; otherwise the text ends in `°F` for scale `f`/`F` and `°C` for any other scale; FormatTemperatureReadsBack fixes the numeral before it |
| StatusScreen.Clock | display.py:83-85 | the hour, minute and second fields add up to the duration; minutes and seconds are below 60; hours are positive exactly from 3600 s on |
| StatusScreen.ClockOf | display.py:83-85 | the field split is unique: fields with minutes and seconds below 60 are recovered from their total |
| StatusScreen.FormatTime | display.py:78-90 | five characters (`MM:SS` or `--:--`) for a missing duration or one under an hour; at least eight (`HH:MM:SS`) from one hour on |
| StatusScreen.FormatTimeMissing | display.py:80-81 | `--:--` is shown exactly for a missing or negative duration |
| StatusScreen.FormatTimeReadsBack | display.py:83-90 | every non-negative duration shows as fields that read back as the same number of seconds: minutes and seconds are two digits below 60; the hour field is present exactly from one hour on, is not zero, and has two digits or no leading zero |
| StatusScreen.FormatTimeHour | display.py:87-88 | 3661 s shows as `01:01:01`, and 3600 s as `01:00:00` |
| StatusScreen.FormatTimeMinute | display.py:89-90 | 59 s shows as `00:59` |
| StatusScreen.StateLine | display.py:126-130 | starts with the state and is at most 3 + 12 characters longer |
| StatusScreen.StateLineShape | display.py:126-130 | line 1 starts with the state; it is the state alone exactly when the profile is absent or empty; otherwise ` - ` and at most 12 characters of the profile follow |
| StatusScreen.TemperatureLine | display.py:135-140 | `Temp: ` or `Targ: ` and the formatted temperature |
| StatusScreen.TimeLine | display.py:144 | `Time: ` runtime ` / ` total time, each as `format_time` shows it |
| StatusScreen.RemainingLine | display.py:148-151 | `Rem: ` and the remaining time, then a space and the rate text when the rate is positive; stated by RemainingLineShape |
| StatusScreen.RateLine | display.py:155-157 | `Rate: N°/hr` |
| StatusScreen.ScheduleLines | display.py:143-157 | two lines when the state is RUNNING or PAUSED with a positive total time; else one rate line when the rate is positive; else none |
| StatusScreen.StatusLines | display.py:126-157 | three to five lines: the state, temperature and target lines, then the schedule lines |
| StatusScreen.TextLines | display.py:132-157 | line `k` is drawn at x 0 and y `12k` |
| StatusScreen.Update | display.py:92-157 | nothing is drawn before initialization; otherwise 3 to 5 text lines at x 0 and y 0, 12, 24 and so on; 5 exactly with a schedule; 4 exactly with no schedule and a positive rate |
| StatusScreen.UpdateLines | display.py:112-140 | lines 1 to 3 are the state line, then `Temp:` and `Targ:` with the `dict.get` defaults applied |
| StatusScreen.UpdateTimeLine | display.py:143-145 | with a schedule, line 4 shows runtime and total time |
| StatusScreen.UpdateRemainingLine | display.py:121 | with a schedule, line 5 shows total time minus runtime, then the rate when it is positive |
| StatusScreen.UpdateRateLine | display.py:153-157 | with no schedule and a positive rate, line 4 is `Rate: N°/hr` |
| StatusScreen.RemainingLineShape | display.py:147-152 | the remaining line starts with `Rem: ` and the time, is `Rem: --:--` for a negative remainder, is longer exactly when the rate is positive, and is then followed by a space and the rate text exactly |
| StatusScreen.UpdateExample | display.py:283-293 | the example state draws `RUNNING - Cone 6 Glaze`, `Temp: 1250°F`, `Targ: 1300°F`, `Time: 01:00:00 / 02:00:00` and `Rem: 01:00:00 150°/hr` |
| StatusScreen.UpdateIdleExample | display.py:112-118 | an empty state dictionary on a Celsius display draws `IDLE`, `Temp: 0°C` and `Targ: 0°C` only |
| StatusScreen.ShowMessage | display.py:172-188 | nothing before initialization; otherwise one text at x 0 and y `12*line`: the first `min(21, len)` characters of the message |
| ImageDemo.LoadIcon | test_image_display.py:67 | `load_icon_from_hex(name)`: an icon exactly when the file exists, and then it has `w*h` pixels |
| ImageDemo.Loaded | test_image_display.py:64-72 | the frames that loaded, in load order; stated by LoadedKeepsOrder and NothingLoaded |
| ImageDemo.LoadedKeepsOrder | test_image_display.py:64-72 | the kept frames are the loaded ones in load order: one per successful load, none for a failure |
| ImageDemo.LoadedFromLoads | test_image_display.py:68-69 | every kept frame is one of the load results |
| ImageDemo.NothingLoaded | test_image_display.py:74-76 | the frame list is empty exactly when every load failed |
| ImageDemo.LoadFrames | test_image_display.py:64-72 | the loop appending successful loads gives exactly the successful loads of the names, in order |
| ImageDemo.PingPong | test_image_display.py:125 | `[pottery] + flames + flames[::-1]`: `1 + 2k` frames starting with the base |
| ImageDemo.Reversed | test_image_display.py:125 | `s[::-1]` has the length of `s` |
| ImageDemo.ReversedAt | test_image_display.py:125 | element `j` of `s[::-1]` is element `len(s) - 1 - j` of `s` |
| ImageDemo.PingPongShape | test_image_display.py:125 | the play list is the base, the flames forwards, then the flames backwards: `1 + 2k` frames, with the last flame twice at the turn |
| ImageDemo.PingPongPalindrome | test_image_display.py:125 | after the base, the play list reads the same backwards |
| ImageDemo.CentreX | test_image_display.py:130 | `(display.width - frame.width) // 2`: the right margin is the left one or one pixel more |
| ImageDemo.CentreXBounds | test_image_display.py:130 | the right margin equals the left one or one pixel more; the offset is negative exactly when the frame is wider than the display |
| ImageDemo.TimeBoxed | test_image_display.py:80-81 | the clock check before each pass: the first `passes` checks find less than the limit gone and the next one does not |
| ImageDemo.TimeBoxedUnique | test_image_display.py:80-81 | the clock readings fix the number of passes |
| ImageDemo.Repeat | test_image_display.py:81-86 | `passes` whole passes in a row; stated by RepeatBlocks |
| ImageDemo.RepeatBlocks | test_image_display.py:81-86 | `n` passes show `n` times the pass, each pass whole and in order |
| ImageDemo.PlayTimeboxed | test_image_display.py:80-86 | whole passes are played while the clock reads under the limit, and none after the first check that finds it reached |
| ImageDemo.AtLeastOnePass | test_image_display.py:81 | at least one pass is played exactly when the first check finds less than the limit gone |
| ImageDemo.TestLogo | test_image_display.py:58-86 | no frames means nothing is shown; otherwise whole passes of the logo frames for ten seconds |
| ImageDemo.PotteryPassShape | test_image_display.py:125-131 | one pass has `1 + 2k` screens of one bitmap each at y 0: the base, the flames forwards, then backwards; each frame is centred, with the right margin equal to the left one or one pixel more |
| ImageDemo.TestPottery | test_image_display.py:88-132 | a missing base or no flame frames means nothing is shown; otherwise whole passes of the centred ping-pong list for ten seconds |
| ImageDemo.ScenarioScreen | test_image_display.py:41-46 | the icon at (0, 0) when it loaded, then the caption at (24, 2) |
| ImageDemo.Lookup | test_image_display.py:43 | `icons.get(name)`: an icon only for a name in the dictionary, and then the dictionary's value |
| ImageDemo.GridCells | test_image_display.py:51-54 | the bitmaps of the first `n` grid cells, at most one per cell |
| ImageDemo.GridCellsPlaced | test_image_display.py:51-54 | each drawn icon is a loaded grid icon at x `20i`, y 0, for its index `i`; x strictly increases |
| ImageDemo.GridCellsCount | test_image_display.py:52-54 | one bitmap per grid icon that loaded |
| ImageDemo.GridScreen | test_image_display.py:50-55 | at most four bitmaps, and the screen ends with `All Icons` at (0, 20) |
| ImageDemo.DrawIconGrid | test_image_display.py:50-55 | the grid loop draws exactly the grid cells, then `All Icons` at (0, 20) |
| ImageDemo.LoadIcons | test_image_display.py:19-24 | the icon dictionary maps each name to its load result |
| ImageDemo.TestIcons | test_image_display.py:13-56 | one screen per scenario in order, then the grid screen, all from one load of the four icons |

## Left out

- Hardware and drawing: the I2C bus, the luma device and `canvas` are left out. A
  screen is the list of draw calls; fonts, pixel rendering and `fill` are not
  modelled. `clear`, `get_icon` (a plain call to `load_icon_from_hex`), the
  constructor and `example_usage`'s object set-up are left out.
- Exceptions and logging: the `try`/`except` handlers and all `log.*` and
  `print` calls are left out. A draw call cannot fail in the model.
- File system: `os.path` and `open` are replaced by the optional file text, so
  the icon directory path is not modelled. That text is what `f.read()` returns
  on a file opened in text mode, where `\r\n` and a lone `\r` have already
  become `\n`; `Split(text, '\n')` then breaks lines where Python does.
- Sleeps: `time.sleep` between frames and screens is left out.
- StatusScreen.FormatTemperature: temperatures and the heating rate are whole
  numbers, so the rounding of `:.0f` on floats is not modelled. `:.0f` also
  converts an integer to a float first, so `IntToString` gives the same text
  only for magnitudes up to 2^53.
- StatusScreen.FormatTime: durations are whole seconds, so `int()` truncation
  of fractional seconds is not modelled.
- StatusScreen.Update: a key that is present with the value `None` is not
  modelled for `state`, `runtime`, `totaltime` and `heat_rate`. In the source:
  - `state` set to `None` raises nothing: line 1 shows the text `None`, and
    `None` is neither RUNNING nor PAUSED (display.py:126, 143).
  - `runtime` set to `None` raises only when `totaltime > 0`, at the
    subtraction on display.py:121, before anything is drawn.
  - `totaltime` set to `None` always raises, at the comparison on
    display.py:121.
  - `heat_rate` set to `None` always raises, at `heat_rate > 0`
    (display.py:149 or 155). By then lines 1 to 3 were drawn on the canvas,
    and with a schedule line 4 as well (display.py:145).
  - Each exception is caught and logged by the `except` at display.py:159-160.
  Temperatures set to `None` are modelled and show as `---`.
- StatusScreen.IsFahrenheit: `scale.lower() == "f"` is taken to hold exactly for
  `f` and `F`.
- Text.IsDigit: the regular-expression class `\d` matches ASCII digits only.
  Python's Unicode digits are not modelled.
- ImageDemo.PlayTimeboxed: it requires the clock readings to reach the limit
  eventually. The source has no such requirement, but without it the loop does
  not end.
- ImageDemo.TestPottery: the play list is built once rather than on each pass
  of the loop. It is the same value every time.
- ImageDemo.TestIcons: the order in which the icon dictionary is walked only
  affects the printed report, which is left out.
- ImageDemo.Lookup: a loaded image is taken to be truthy, so `if icon:` and
  `if icons.get(name):` test only whether the load succeeded.
- `main` and its argument parsing are left out.
