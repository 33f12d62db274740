# gressbar progress bar, modelled in Dafny

gressbar draws one interactive progress bar on a terminal. A `ProgressBar` is
built with:

- a `target`;
- a track `width` (20 by default);
- an optional `bar_prefix`, stored with one trailing space when it is non-empty.

Each call to `update(current, ...)` redraws the bar in place. It moves back over
the previous line with one backspace per recorded cell and then a carriage
return. It then writes the indent, the prefix and the bold label
`"{current:>digits}/{target}"`. After the label come a green run of `━` cells
(`int(width * current / target)` of them, when positive) and a grey run of the
remaining cells. Last come the optional info text (`create_bar_info` of the
`info` dict merged with the keyword arguments). When the previous redraw
recorded a larger width, blanks for the difference between the two recorded
widths follow. It records the new width in `_prev_width` and hands the
line to `log_msg`. `log_msg` writes the line, and a newline only when the bar is
finished.

The class exists twice in the repository, as `src/gressbar/bar.py` and
`src/progress_bar/bar.py`. The two files differ only in their docstrings, so it
is modelled once and the table cites both.

The project has six modules:

- `Wrappers` holds the optional value.
- `Text` holds Python's string operations: `str * n`, `"".join`, `sep.join`, `%d` and `%Nd`, and the digit count of a number.
- `Ansi` holds the SGR escape sequences and `Visible`, which is what a terminal shows of a string once ECMA-48 CSI control sequences (section 5.4) are taken out.
- `Info` holds dicts as insertion-ordered item sequences: `d[k] = v`, `a | b` and `create_bar_info`.
- `Render` holds one redraw as pure functions of the bar's settings, the previous width and the arguments of `update`. It also holds the lemmas about that redraw.
- `Bar` holds the `ProgressBar` class. Its constant fields are `target`, `width` and `barPrefix`. Its mutable fields are `prevWidth` and `log`, the text written so far. Its methods `LogMsg` and `Update` are proved against `Render`. The bar-drawing first half of `update` (building `_bar` and counting `n_special_chars`) is the method `DrawBar`.

The recorded width follows the code's formula, `len(bar) + len(bar_info) + 1 - n_special_chars`.
`Render.TotalWidthVersusShown` proves what that formula amounts to:

- it leaves out the indent and the prefix;
- it counts one cell more than is shown when there is no info text.

Reading `_prev_width` as the visible length of the last line would be wrong:
the code does not compute that, and the model follows the code. As a
consequence, the blanks do not always cover the previous line, and old cells
stay on screen:

- An update with info text followed by one without leaves the last character of
  the old info text (`Render.StaleInfoTail`). For example, `ProgressBar(10)`,
  then `update(1, a="x")`, then `update(2)` leaves the `x`.
- An update followed by one with a smaller indent leaves as many cells as the
  indent shrank by (`Render.StaleIndent`).

Likewise the code does not clamp the fill count when `current > target`, and it
does not validate `width`. The model follows the code in both respects, with the
limits listed below.

## Model

| member | source | states |
|---|---|---|
| `Bar.ProgressBar.constructor` | src/gressbar/bar.py:29-32 | The fields are the given target and width. The stored prefix is the normalised one. The recorded width is 0 and nothing has been written yet. |
| `Render.NormalizePrefix` | src/progress_bar/bar.py:25 | The stored prefix is empty exactly when the given one is missing or empty. Otherwise it is the given prefix followed by one space. |
| `Render.PrefixKept` | tests/test_progress_bar.py:19-23 | A given prefix occurs verbatim in the stored prefix. |
| `Bar.ProgressBar.LogMsg` | src/gressbar/bar.py:35-38 | The log grows by exactly the written text. The recorded width is unchanged. |
| `Render.Written` | src/progress_bar/bar.py:28-30 | The written text is the message, plus one trailing newline exactly when a line break is asked for. |
| `Render.WrittenKeeps` | src/gressbar/bar.py:37 | Any substring of the message is a substring of what is written. |
| `Info.CreateBarInfo` | src/gressbar/bar.py:41-43 | The info text is empty exactly when the dict is empty. A one-item dict gives `"k: v"`. |
| `Info.CreateBarInfoSnoc` | src/progress_bar/bar.py:32-34 | One more item appends `", k: v"`, so the items appear in order, formatted and comma-separated. |
| `Info.CreateBarInfoExcludes` | src/gressbar/bar.py:43 | A character used by no key, no value and neither separator does not occur in the text. |
| `Info.CreateBarInfoExample` | tests/test_progress_bar.py:57-60 | `{"test1": 123, "test2": 123}` renders as `"test1: 123, test2: 123"`. |
| `Info.InsertLookup` | src/gressbar/bar.py:92 | After `d[k] = v`, `k` maps to `v` and every other key keeps its value. |
| `Info.InsertUnique` | src/progress_bar/bar.py:72 | `d[k] = v` keeps the keys distinct. |
| `Info.MergeUnique` | src/gressbar/bar.py:92 | `a \| b` is a dict: its keys are distinct. |
| `Info.MergeLookup` | src/gressbar/bar.py:62-63 | In `info \| info_kwargs` a keyword's value wins; any other key of `info` keeps its own value. |
| `Info.MergeKeys` | src/progress_bar/bar.py:72 | The keys of `a \| b` are those of `a` in order, then the keys of `b` not already in `a`, in order. |
| `Info.MergeDisjoint` | src/gressbar/bar.py:92 | Merging a dict whose keys are all new appends its items unchanged. |
| `Info.MergeEmpty` | src/progress_bar/bar.py:72 | `{} \| d == d` and `d \| {} == d`. |
| `Info.MergeAvoids` | src/gressbar/bar.py:92 | Every item of `a \| b` comes from `a` or `b`, so a character neither uses is absent from the merge. |
| `Render.OneSidedInfo` | src/gressbar/bar.py:91-93 | With only `info` or only keyword arguments, the info text is `create_bar_info` of that one dict. The line then carries a space and that text, or nothing when the dict is empty. |
| `Render.InfoTextAvoids` | src/progress_bar/bar.py:69-73 | A character no key and no value uses, other than the separators, is absent from the info text and from what follows the bar. |
| `Text.NumDigitsBounds` | src/gressbar/bar.py:67 | `numdigits - 1` is the integer part of `log10(target)`: `10^(d-1) <= target < 10^d`. |
| `Text.NumDigitsMonotone` | src/progress_bar/bar.py:47 | A larger number never has fewer digits. |
| `Text.DecimalRoundTrip` | src/gressbar/bar.py:68 | `%d` of a natural number reads back as that number. |
| `Text.LeftPad` | src/progress_bar/bar.py:48 | `%Nd` right-aligns in a field of `N` characters and never cuts. The result ends with the digits and is blank before them. |
| `Text.Repeat` | src/gressbar/bar.py:75 | `c * n` is `n` copies of `c`, and empty when `n <= 0`. |
| `Text.ConcatAppend` | src/gressbar/bar.py:78 | Joining two lists of parts is joining each and concatenating. |
| `Text.JoinSnoc` | src/progress_bar/bar.py:34 | Joining one more part adds the separator and the part at the end. |
| `Text.JoinExcludes` | src/gressbar/bar.py:43 | A character in neither the separator nor any part is not in the join. |
| `Render.LabelShape` | src/gressbar/bar.py:68 | The label contains `"{current}/{target}"` and holds no escape character and no newline. |
| `Render.LabelLength` | src/progress_bar/bar.py:47-48 | For `0 <= current <= target` the label is `2 * digits(target) + 1` characters long, whatever `current` is. |
| `Render.FilledInRange` | src/gressbar/bar.py:71-72 | For `0 <= current <= target` the fill count is `floor(width * current / target)` and lies in `[0, width]`. Filled and unfilled cells then total exactly `width`. |
| `Ansi.VisibleStyles` | src/gressbar/bar.py:69 | The bold, reset, green and grey codes take no room on screen. Bold and reset are 4 characters, green and grey 5. |
| `Ansi.VisibleStyled` | src/progress_bar/bar.py:55 | A styled piece of plain text followed by more text shows as the piece, then what the rest shows. |
| `Ansi.VisiblePlain` | src/gressbar/bar.py:84-86 | Text without an escape character shows as it is. |
| `Render.AssembleSegments` | src/gressbar/bar.py:74-77 | The green segment is drawn exactly when some cell is filled. The bar then holds six escape characters, and four otherwise. |
| `Render.VisibleAssemble` | src/progress_bar/bar.py:49-58 | The bar followed by any text shows the label, a space, the track cells and then what the text shows. |
| `Render.SpecialCharsAreControls` | src/gressbar/bar.py:76-80 | `n_special_chars` (9 when green is drawn, plus 17) is exactly the number of control-sequence characters in `bar`. |
| `Bar.DrawBar` | src/gressbar/bar.py:65-80 | Building `_bar` piece by piece gives the bar of the model. The counter ends as the bar's length minus its visible length. |
| `Render.FractionInBar` | src/progress_bar/bar.py:48-49 | `"{current}/{target}"` occurs in the bar. |
| `Render.TotalWidthValue` | src/gressbar/bar.py:95 | The recorded width is the label, a space, the track cells, the info text and one more. For `0 <= current <= target` it is `2 * digits(target) + width + len(info text) + 3`. |
| `Render.TotalWidthVersusShown` | src/progress_bar/bar.py:75 | The visible body of the line, plus one when there is no info, equals the indent plus the prefix plus the recorded width. |
| `Render.StaleInfoTail` | src/gressbar/bar.py:95-98 | After an in-range update with info text, an in-range update without any shows a body that, with its blanks, covers one cell less than the previous body showed. |
| `Render.StaleIndent` | src/progress_bar/bar.py:75-78 | Two in-range updates with the same info write no blanks. The second body, with a smaller indent, falls short of the first by the difference of the indents. |
| `Render.SteadyWidth` | src/gressbar/bar.py:95-98 | Two in-range updates with the same info record the same width, so the second one pads nothing. |
| `Render.RedrawShape` | src/gressbar/bar.py:81-98 | The message starts with one backspace per previously recorded cell and a carriage return. It ends with blanks that, added to the new width, reach at least the previous width, and none when the new width is not smaller. |
| `Render.NoNewlineInMessage` | tests/test_progress_bar.py:26-34 | When the prefix and the info hold no newline, the message holds none. |
| `Bar.ProgressBar.UpdateEach` | tests/test_progress_bar.py:26-34 | Updating in turn to values that are not the target writes one text per update. None of them holds a newline, and neither does their concatenation, when the prefix holds none. |
| `Text.ConcatExcludes` | src/gressbar/bar.py:102 | A character in no part is not in `"".join(parts)`. |
| `Render.NewlineIff` | src/gressbar/bar.py:101-104 | The written text contains a newline exactly when the line is to be broken. By default that is when `current == target`, otherwise it is `finished`. |
| `Render.LineShows` | tests/test_progress_bar.py:10-16 | The message shows the prefix, `"{current}/{target}"` and the info text. |
| `Render.OutputShows` | tests/test_progress_bar.py:43-54 | What one update writes shows the fraction and the given prefix. With only `info` or only keyword arguments, it also shows `create_bar_info` of that dict. |
| `Bar.UpdateAgrees` | src/progress_bar/bar.py:75-80 | The pieces `update` computes give the recorded width and the message of the model. |
| `Bar.ProgressBar.Update` | src/gressbar/bar.py:45-104 | The recorded width becomes the new width, which is the label, a space, the cells, the info text and one more. The log grows by the written redraw, computed from the previously recorded width, with a newline exactly when the update is finished. |

## Left out

- Writing to the real `sys.stdout` and flushing it are not modelled. Each bar keeps what it wrote in its own `log` field, so output interleaved from several bars or other writers is not modelled. `log_msg` becomes an instance method for that reason.
- `Render.FilledInRange`: `int(width * (float(current) / target))` is modelled as exact division truncated toward zero. Floating-point rounding is not modelled, and the model can be one cell off on ordinary inputs. For `width=100, current=29, target=100` the source computes `100 * 0.29 == 28.999999999999996` and draws 28 filled cells, while the model draws 29.
- `Text.NumDigitsBounds`: `int(math.log10(target)) + 1` is modelled as the exact digit count. For targets of 15 or more digits, floating-point `log10` can round up just below a power of ten. For example, `int(math.log10(999999999999999)) + 1` is 16 for a 15-digit target. That rounding is not modelled.
- `Bar.ProgressBar.constructor`: requires `target >= 1` and `width >= 0`. The source checks neither. A non-positive target makes `update` raise in `math.log10`, and that error path is not modelled. A negative width is not modelled either.
- Info values are taken as already rendered by `str()`. The conversion itself is not part of this model.
- `info=None` is modelled as the empty dict. `info or {}` treats the two the same.
- Keyword arguments are a separate ordered dict. Python forbids keyword names that clash with `update`'s own parameters, and that restriction is not modelled.
- `finished` is modelled as an optional boolean. Python truthiness of other values passed there is not modelled.
- What a terminal does with backspace, carriage return and wide glyphs is not modelled. `Visible` only removes CSI control sequences. Lengths are Python `len`, i.e. code points.
- The tests read the output through pytest's capture fixture, which is not part of this model. Its assertions appear as the lemmas cited against `tests/test_progress_bar.py`.
