# Highcharts: mouse-wheel zoom, SVG path tokeniser, palette helper

This project models three small parts of Highcharts in Dafny and proves what
they promise.

- **Mouse-wheel zoom** (`mouse_wheel_zoom.dfy`, module `MouseWheelZoom`).
  - `optionsToObject` normalises `chart.zooming.mouseWheel` over the defaults: enabled, sensitivity 1.1.
  - `zoomBy` picks the zoom type, then the axes, then builds the cursor-anchored request for `chart.transform`.
  - The wheel listener decides whether to zoom and with which factor and axes.
  - One module-level `wheelTimer` is shared by all charts. It is cleared on every `zoomBy` and re-armed only after an effective zoom.
  - `compose` registers each chart class once.
  - The module-level state (`composedClasses`, the listeners, the timer slot) is the class `WheelZoomRuntime`. Its methods are tied to pure functions (`Register`, `AfterZoom`, `Fire`), and lemmas about those functions carry the properties.
  - A pure trace semantics (`Run`) describes what the shared timer does over a series of zooms and quiet periods.
- **SVG path tokeniser** (`split_path.dfy`, module `SplitPath`). `splitPath` from the map module:
  - pads every ASCII letter with spaces;
  - trims JavaScript whitespace;
  - splits on runs of space, comma and semicolon;
  - keeps a token as a string when it holds a character of the range `A`..`z`, as the code's `/[A-za-z]/` is written, and sends every other token to `parseFloat`.
  - An array path is handed to `pathToSegments` unchanged.
- **Palette helper demo** (`palette_helper.dfy`, module `PaletteHelper`).
  - `rgbToHex` is modelled bit for bit on unbounded naturals: `1 << 24 | r << 16 | g << 8 | b`, `toString(16)`, `slice(1)`. It is proved equal to two lowercase digits per channel and inverted by a decoder.
  - The palette-filling loops of `generate` are the method `Generate`, proved against `PaletteOf`.
  - `findColors` is the recursive method `FindColors`, whose loop builds the theme in place. It is proved equal to the recursive specification `Colors`/`Records`/`Record`, whose loop is the fold `Build`. Lemmas then state what that theme is: its keys, its order, its nesting, its colours.
- `wrappers.dfy` holds the `Option` type shared by the modules.

The timer is modelled as the code has it. One `wheelTimer` serves every chart on the page, so a zoom on one chart (a `zoomBy` call, whether it takes effect or not) cancels another chart's pending `drop` (`MouseWheelZoom.OtherChartCancelsDrop`). A wheel event reaches `zoomBy` only when it is inside the plot, outside `highcharts-no-mousewheel`, and on a chart whose listener was added. A timer per chart would keep each chart's drop; the code's single timer does not, and the model keeps the code's behaviour.

## Model

| member | source | states |
|---|---|---|
| MouseWheelZoom.OptionsToObject | ts/Extensions/MouseWheelZoom/MouseWheelZoom.ts:45-71 | wheel zoom is off exactly when `false` is given alone or as `enabled`; unset, `null` and `true` give the defaults; the sensitivity is the given one or 1.1; a non-object has no zoom type |
| MouseWheelZoom.Merge | ts/Extensions/MouseWheelZoom/MouseWheelZoom.ts:70 | defines `merge(defaultOptions, options)` for the three keys of the wheel options: a key the options set wins, any other keeps its default; `OptionsToObject` states the outcome |
| MouseWheelZoom.ResolveType | ts/Extensions/MouseWheelZoom/MouseWheelZoom.ts:86-90 | the option's type wins whenever it is defined (even `''`), else the chart's zooming type, else `''` |
| MouseWheelZoom.SelectAxes | ts/Extensions/MouseWheelZoom/MouseWheelZoom.ts:92-99 | `x` gives exactly the passed x axes, `y` the passed y axes, `xy` all chart axes; any other type gives none |
| MouseWheelZoom.XyIgnoresPassedAxes | ts/Extensions/MouseWheelZoom/MouseWheelZoom.ts:97-98 | for `xy` the axis lists passed by the handler make no difference |
| MouseWheelZoom.EmptyTypeZoomsNothing | ts/Extensions/MouseWheelZoom/MouseWheelZoom.ts:86-99 | an explicit `''` type blocks the fall-back to the chart's `x`, so no axis is zoomed; without it the x axes are |
| MouseWheelZoom.Move | ts/Extensions/MouseWheelZoom/MouseWheelZoom.ts:110-111 | defines the pan offset `offset - howMuch * offset` of one direction; `ZoomKeepsCursorFixed` states what it achieves |
| MouseWheelZoom.ZoomRequest | ts/Extensions/MouseWheelZoom/MouseWheelZoom.ts:86-114 | defines the object passed to `chart.transform`: the selected axes, the two pan offsets, and `howMuch` as both zoom factors; `ZoomKeepsCursorFixed` states its properties |
| MouseWheelZoom.ZoomKeepsCursorFixed | ts/Extensions/MouseWheelZoom/MouseWheelZoom.ts:101-114 | the request zooms the selected axes by `howMuch` on both axes, keeps the point under the cursor where it is, and multiplies every other point's distance to the cursor by `howMuch` |
| MouseWheelZoom.Delta | ts/Extensions/MouseWheelZoom/MouseWheelZoom.ts:151 | a non-zero `detail` is the delta; otherwise the delta is `(deltaY or 0) / 120` |
| MouseWheelZoom.EffectiveSensitivity | ts/Extensions/MouseWheelZoom/MouseWheelZoom.ts:150 | a zero sensitivity is replaced by 1.1; any other is kept; the result is never zero |
| MouseWheelZoom.PlanWheel | ts/Extensions/MouseWheelZoom/MouseWheelZoom.ts:138-170 | the handler zooms exactly when the pointer is inside the plot and the target is not in `highcharts-no-mousewheel`; the factor is `pow(sensitivity, delta)`; an assigned axis replaces the chart's list for its direction |
| MouseWheelZoom.DeltaExamples | ts/Extensions/MouseWheelZoom/MouseWheelZoom.ts:150-151 | `detail` 3 gives 3; `deltaY` 240 gives 2; `detail` 0 falls back to `deltaY`; nothing gives 0; sensitivity 0 counts as 1.1 |
| MouseWheelZoom.WheelScenario | ts/Extensions/MouseWheelZoom/MouseWheelZoom.ts:136-170 | one `deltaY` 120 notch on an `x` chart with sensitivity 1.1 zooms by `pow(1.1, 1)` on the two x axes only |
| MouseWheelZoom.Cancel | ts/Extensions/MouseWheelZoom/MouseWheelZoom.ts:104-106 | on a valid slot, clearing `wheelTimer` removes the pending timer |
| MouseWheelZoom.Arm | ts/Extensions/MouseWheelZoom/MouseWheelZoom.ts:121-123 | defines `wheelTimer = setTimeout(...)`: a fresh handle, pending for the zoomed chart; `AfterZoomCancelsThenArms` states its effect |
| MouseWheelZoom.AfterZoom | ts/Extensions/MouseWheelZoom/MouseWheelZoom.ts:104-124 | defines the timer slot after one `zoomBy`: cleared first, then armed when `transform` returned true; `AfterZoomCancelsThenArms` states its properties |
| MouseWheelZoom.AfterZoomCancelsThenArms | ts/Extensions/MouseWheelZoom/MouseWheelZoom.ts:104-124 | every `zoomBy` first clears the slot (`Cancel` leaves nothing pending) and so cancels the pending timer whatever the outcome; a fresh timer for its chart is armed exactly when `transform` returned true; the slot stays valid |
| MouseWheelZoom.Fire | ts/Extensions/MouseWheelZoom/MouseWheelZoom.ts:121-123 | defines the pending callback running: the slot empties and the pending chart, if any, is dropped; `FireKeepsValid` states its properties |
| MouseWheelZoom.Run | ts/Extensions/MouseWheelZoom/MouseWheelZoom.ts:104-124 | defines the outcome of a series of zooms and quiet periods on the shared timer; `RunKeepsValid`, `RunDrops` and `BurstDropsNothing` state its properties |
| MouseWheelZoom.FireKeepsValid | ts/Extensions/MouseWheelZoom/MouseWheelZoom.ts:121-123 | firing empties the slot, keeps the handle defined and drops a chart exactly when a timer was pending |
| MouseWheelZoom.RunKeepsValid | ts/Extensions/MouseWheelZoom/MouseWheelZoom.ts:50-124 | any series of zooms and quiet periods keeps at most one valid pending timer, and yields one outcome per event |
| MouseWheelZoom.RunDrops | ts/Extensions/MouseWheelZoom/MouseWheelZoom.ts:104-124 | a quiet period drops chart `c` exactly when the event just before it was an effective zoom on `c` (or, first in the run, when `c`'s timer was pending) |
| MouseWheelZoom.BurstDropsNothing | ts/Extensions/MouseWheelZoom/MouseWheelZoom.ts:104-124 | in any series made only of zooms, on any charts, with any outcomes, from any valid slot, no event drops a pointer |
| MouseWheelZoom.QuietAfterZoomDrops | ts/Extensions/MouseWheelZoom/MouseWheelZoom.ts:116-124 | one quiet period after an effective zoom drops that chart once; a second quiet period drops nothing |
| MouseWheelZoom.OtherChartCancelsDrop | ts/Extensions/MouseWheelZoom/MouseWheelZoom.ts:50-124 | a no-op zoom on another chart cancels the first chart's drop, because the timer is shared |
| MouseWheelZoom.Register | ts/Extensions/MouseWheelZoom/MouseWheelZoom.ts:191-193 | defines the `composedClasses` list after one `compose`: the class is pushed only when `indexOf` does not find it; `RegisterProperties` states its properties |
| MouseWheelZoom.ComposeAll | ts/Extensions/MouseWheelZoom/MouseWheelZoom.ts:187-196 | defines the registry after a series of `compose` calls; `ComposeAllRegistersOnce` and `ComposeAllTwice` state its properties |
| MouseWheelZoom.RegisterProperties | ts/Extensions/MouseWheelZoom/MouseWheelZoom.ts:191-195 | registering keeps the registry free of duplicates, adds exactly the class, and a second registration changes nothing |
| MouseWheelZoom.ComposeAllRegistersOnce | ts/Extensions/MouseWheelZoom/MouseWheelZoom.ts:191-195 | after any series of `compose` calls, each class called is registered exactly once and no other is |
| MouseWheelZoom.ComposeAllTwice | ts/Extensions/MouseWheelZoom/MouseWheelZoom.ts:191-195 | repeating a series of `compose` calls leaves the registry as it was |
| MouseWheelZoom.WheelZoomRuntime.constructor | ts/Extensions/MouseWheelZoom/MouseWheelZoom.ts:44-50 | the module starts with no composed class, no listener and an undefined `wheelTimer` |
| MouseWheelZoom.WheelZoomRuntime.Compose | ts/Extensions/MouseWheelZoom/MouseWheelZoom.ts:187-196 | the registry becomes `Register(old, C)`; each composed class has exactly one `afterGetContainer` listener; the timer is untouched |
| MouseWheelZoom.WheelZoomRuntime.AfterGetContainer | ts/Extensions/MouseWheelZoom/MouseWheelZoom.ts:132-137 | a wheel listener for the chart is added, with the options normalised now, exactly when the class is composed and wheel zoom is enabled |
| MouseWheelZoom.WheelZoomRuntime.ZoomBy | ts/Extensions/MouseWheelZoom/MouseWheelZoom.ts:77-127 | returns exactly `transform(ZoomRequest(...))`; the timer slot becomes `AfterZoom(old slot, chart, result)`; nothing else changes |
| MouseWheelZoom.WheelZoomRuntime.OnWheel | ts/Extensions/MouseWheelZoom/MouseWheelZoom.ts:137-179 | the listener plans and zooms with the chart as it is when the event arrives (plot offsets, axis lists, zooming type) and with the options captured when it was added; with no plan nothing changes and `preventDefault` is not called; otherwise `preventDefault` is called exactly when the zoom took effect, and the timer moves as `AfterZoom` says |
| MouseWheelZoom.WheelZoomRuntime.FireTimer | ts/Extensions/MouseWheelZoom/MouseWheelZoom.ts:121-123 | the pending callback runs once, empties the slot and drops its chart's pointer if the chart still has one |
| SplitPath.PadLetters | ts/Maps/Map.ts:179 | defines `.replace(/([A-Za-z])/g, ' $1 ')`: each ASCII letter becomes space, letter, space; `PadLettersPads`, `PadLettersKeepsLetters` and `UnpadPadLetters` state its properties |
| SplitPath.TrimStart | ts/Maps/Map.ts:181 | the result is a suffix, everything cut is whitespace, and it does not start with whitespace |
| SplitPath.TrimEnd | ts/Maps/Map.ts:181 | the result is a prefix, everything cut is whitespace, and it does not end with whitespace |
| SplitPath.Trim | ts/Maps/Map.ts:181 | the trimmed string neither starts nor ends with whitespace |
| SplitPath.TrimSlice | ts/Maps/Map.ts:181 | the trimmed string is a slice of the input with only whitespace cut on both sides |
| SplitPath.FieldLength | ts/Maps/Map.ts:186 | the field length stops at a separator or at the end; `FieldLengthPrefix` states that no separator comes before it |
| SplitPath.FieldLengthPrefix | ts/Maps/Map.ts:186 | no character before the measured field length is a separator, so a field runs up to the first separator or the end |
| SplitPath.SkipSeparators | ts/Maps/Map.ts:186 | what is left is no longer than the input and does not start with a separator; `SkipSeparatorsSuffix` states that only a run of separators was cut |
| SplitPath.SkipSeparatorsSuffix | ts/Maps/Map.ts:186 | skipping leaves a suffix of the input, and every character cut off is a separator, so a whole run is skipped |
| SplitPath.Fields | ts/Maps/Map.ts:186 | defines `.split(/[ ,;]+/)`: the pieces between maximal runs of separators; `FieldsSplitAtRuns`, `FieldsHaveNoSeparator`, `FieldsKeepNonSeparators` and `FieldsInteriorNonEmpty` state its properties |
| SplitPath.Tokens | ts/Maps/Map.ts:177-186 | defines the tokens of a string path: pad, trim, split; `TokensHaveNoSeparator`, `LetterTokensAreSingle` and `LetterTokensInSourceOrder` state its properties |
| SplitPath.Classify | ts/Maps/Map.ts:188-193 | a token stays a string exactly when it holds a character of `A`..`z`; any other token is `parseFloat` of itself |
| SplitPath.ClassifyAll | ts/Maps/Map.ts:188-193 | one item per token, in order, each the token's classification |
| SplitPath.PathArrayOf | ts/Maps/Map.ts:176-196 | an array path is kept unchanged |
| SplitPath.SplitPath | ts/Maps/Map.ts:194-198 | an array path reaches `pathToSegments` unchanged |
| SplitPath.FieldsHaveNoSeparator | ts/Maps/Map.ts:186 | no field of the split holds a space, comma or semicolon |
| SplitPath.FieldsKeepNonSeparators | ts/Maps/Map.ts:186 | splitting removes the separators and nothing else: the fields put back together are the non-separator characters of the string, in order |
| SplitPath.FieldsInteriorNonEmpty | ts/Maps/Map.ts:186 | the separator runs are maximal: every field but the first and the last is non-empty |
| SplitPath.FieldsSplitAtRuns | ts/Maps/Map.ts:186 | the string is exactly its fields with a non-empty run of separators between each two, so the split cuts at separator runs and nowhere else |
| SplitPath.TokensHaveNoSeparator | ts/Maps/Map.ts:177-186 | no token of a string path holds a space, comma or semicolon |
| SplitPath.PadLettersPads | ts/Maps/Map.ts:179 | after padding, every ASCII letter has a space on each side |
| SplitPath.UnpadPadLetters | ts/Maps/Map.ts:179 | padding inserts nothing but the two spaces around each letter: removing them gives back the path exactly |
| SplitPath.TrimmedPaddingIsolated | ts/Maps/Map.ts:179-181 | after padding and trimming, no letter touches a character other than a space |
| SplitPath.IsolatedLettersAreSingleFields | ts/Maps/Map.ts:186 | when letters are isolated, a field holding a letter is that letter alone |
| SplitPath.LetterTokensAreSingle | ts/Maps/Map.ts:177-186 | every token holding an ASCII letter is that single letter |
| SplitPath.ExponentIsSplit | ts/Maps/Map.ts:177-193 | `1e5` becomes `1`, `e`, `5`, and the path array is `parseFloat("1")`, `"e"`, `parseFloat("5")` |
| SplitPath.UnderscoreStaysText | ts/Maps/Map.ts:189 | `_` is no letter, yet the `A`..`z` range keeps it as a string |
| SplitPath.PadLettersKeepsLetters | ts/Maps/Map.ts:179 | padding keeps the letters and their order |
| SplitPath.TrimKeepsLetters | ts/Maps/Map.ts:181 | trimming keeps the letters and their order |
| SplitPath.FieldsKeepLetters | ts/Maps/Map.ts:186 | splitting keeps the letters and their order across the fields |
| SplitPath.LetterTokensInSourceOrder | ts/Maps/Map.ts:177-193 | the letter tokens, in order, are exactly the letters of the input, one per token |
| PaletteHelper.HexDigit | samples/highcharts/css/palette-helper/demo.js:8 | a digit below 16 is written as a lowercase hex digit |
| PaletteHelper.DigitValue | samples/highcharts/css/palette-helper/demo.js:8 | reading a lowercase hex digit gives the value that writes it |
| PaletteHelper.ToHexString | samples/highcharts/css/palette-helper/demo.js:8 | `toString(16)` of a non-negative integer is never empty; `SentinelDigits` states its digits for the packed value |
| PaletteHelper.HexDigits | samples/highcharts/css/palette-helper/demo.js:8 | a zero-padded hex field has exactly the requested width; `HexDigitsLower` states that its characters are lowercase hex digits |
| PaletteHelper.HexDigitsLower | samples/highcharts/css/palette-helper/demo.js:8 | every character of a zero-padded hex field is a lowercase hex digit |
| PaletteHelper.SentinelDigits | samples/highcharts/css/palette-helper/demo.js:8 | writing `16^w + m` in hex gives `1` followed by `m` zero-padded to `w` digits, which is why `slice(1)` pads |
| PaletteHelper.ShiftLeft | samples/highcharts/css/palette-helper/demo.js:8 | defines `x << k` on non-negative values as `x * 2^k`; `PackedValue` states its use |
| PaletteHelper.BitOr | samples/highcharts/css/palette-helper/demo.js:8 | defines `a \| b` bit by bit on non-negative values; `BitOrDisjoint` states when it is a sum |
| PaletteHelper.BitOrDisjoint | samples/highcharts/css/palette-helper/demo.js:8 | or-ing a value shifted by `k` with one below `2^k` is their sum |
| PaletteHelper.Packed | samples/highcharts/css/palette-helper/demo.js:8 | defines `1 << 24 \| r << 16 \| g << 8 \| b` with the modelled operators; `PackedValue` states its value |
| PaletteHelper.PackedValue | samples/highcharts/css/palette-helper/demo.js:8 | `1 << 24 \| r << 16 \| g << 8 \| b` equals `0x1000000 + r*0x10000 + g*0x100 + b` |
| PaletteHelper.RgbToHex | samples/highcharts/css/palette-helper/demo.js:6-9 | defines `'#' + packed.toString(16).slice(1)`; `RgbToHexDigits`, `RgbToHexIsHexColor` and `ParseRgbToHex` state its properties |
| PaletteHelper.RgbToHexDigits | samples/highcharts/css/palette-helper/demo.js:6-9 | `rgbToHex` is `#` then two zero-padded digits for r, g and b, in that order |
| PaletteHelper.RgbToHexIsHexColor | samples/highcharts/css/palette-helper/demo.js:6-9 | the result is `#` followed by exactly six lowercase hex digits |
| PaletteHelper.ParseHexColor | samples/highcharts/css/palette-helper/demo.js:6-9 | the decoder of the encoder's output accepts exactly `#` plus six lowercase hex digits |
| PaletteHelper.ParseRgbToHex | samples/highcharts/css/palette-helper/demo.js:6-9 | decoding the six digits in pairs gives back r, g and b |
| PaletteHelper.RgbToHexParse | samples/highcharts/css/palette-helper/demo.js:6-9 | every `#rrggbb` string in lowercase is the encoding of the colour it decodes to |
| PaletteHelper.DecimalInjective | samples/highcharts/css/palette-helper/demo.js:226 | different weights give different names in a template literal |
| PaletteHelper.AssignWeights | samples/highcharts/css/palette-helper/demo.js:220-249 | defines the palette after one `forEach` over the weights, later assignments last; `AssignWeightsKeys`, `AssignWeightsAt` and `AssignWeightsElsewhere` state its properties |
| PaletteHelper.PaletteOf | samples/highcharts/css/palette-helper/demo.js:211-249 | defines the palette `generate` builds: the background colour, then the neutral and the highlight shades; `PaletteKey` and `PaletteShades` state its properties |
| PaletteHelper.Generate | samples/highcharts/css/palette-helper/demo.js:188-249 | the palette after the background assignment and the two `forEach` loops is `PaletteOf` of the inputs |
| PaletteHelper.AssignWeightsKeys | samples/highcharts/css/palette-helper/demo.js:220-249 | after a loop, a name is in the palette exactly when it was before or is the name of one of the weights |
| PaletteHelper.AssignWeightsAt | samples/highcharts/css/palette-helper/demo.js:220-249 | a weight's name holds that weight's shade when no later weight repeats it |
| PaletteHelper.AssignWeightsElsewhere | samples/highcharts/css/palette-helper/demo.js:220-249 | a name that is no weight's name keeps its value through the loop |
| PaletteHelper.ColorMapValues | samples/highcharts/css/palette-helper/demo.js:266-281 | `colorMap` names exactly the background, the eight neutral and the five highlight names |
| PaletteHelper.PaletteKey | samples/highcharts/css/palette-helper/demo.js:211-249 | a name is in the generated palette exactly when it is one of those fourteen |
| PaletteHelper.PaletteKeysAreColorMapValues | samples/highcharts/css/palette-helper/demo.js:211-281 | the generated palette's names are exactly the values of `colorMap` |
| PaletteHelper.PaletteShades | samples/highcharts/css/palette-helper/demo.js:211-249 | the background name holds the input colour, and each weight's name holds `rgbToHex` of that weight's tweened colour |
| PaletteHelper.ShadesAreHexColors | samples/highcharts/css/palette-helper/demo.js:220-249 | every neutral and highlight entry of the palette is a `#rrggbb` colour |
| PaletteHelper.ContainsHexColor | samples/highcharts/css/palette-helper/demo.js:298 | defines `/#[0-9a-f]{6}/.test(s)`: the pattern occurs somewhere in `s`; `ContainsHexColorCases` states its properties |
| PaletteHelper.ContainsHexColorCases | samples/highcharts/css/palette-helper/demo.js:298 | the test finds `#rrggbb` anywhere in a string and never in one shorter than seven characters |
| PaletteHelper.LookupColor | samples/highcharts/css/palette-helper/demo.js:300-307 | a colour in `colorMap` reads its palette entry; any other reads the palette under `"undefined"`; a found colour is one of the palette's |
| PaletteHelper.Keys | samples/highcharts/css/palette-helper/demo.js:312 | the keys of a theme, one per entry, in order |
| PaletteHelper.Lookup | samples/highcharts/css/palette-helper/demo.js:292 | a key reads nothing exactly when it is not among the theme's keys |
| PaletteHelper.Assign | samples/highcharts/css/palette-helper/demo.js:292-308 | defines `theme[k] = v` on an insertion-ordered theme; `AssignLookup`, `AssignAppends`, `AssignReplaces` and `AssignKeepsKeysUnique` state its properties |
| PaletteHelper.AssignLookup | samples/highcharts/css/palette-helper/demo.js:292-308 | after `theme[k] = v`, `k` reads `v` and every other key reads as before |
| PaletteHelper.AssignAppends | samples/highcharts/css/palette-helper/demo.js:292-308 | assigning a key the theme does not hold appends it last |
| PaletteHelper.AssignReplaces | samples/highcharts/css/palette-helper/demo.js:292-308 | assigning a key the theme holds replaces it where it stands: the keys and their order stay |
| PaletteHelper.AssignKeepsKeysUnique | samples/highcharts/css/palette-helper/demo.js:292-308 | assigning never makes a key appear twice |
| PaletteHelper.FindColors | samples/highcharts/css/palette-helper/demo.js:285-313 | the recursive walk with its loop returns exactly `Colors(obj, palette)` |
| PaletteHelper.Colors | samples/highcharts/css/palette-helper/demo.js:285-313 | defines what `findColors` returns: a throw on `null`, `undefined` for a non-object, an array or an empty theme, else the theme; `ColorsShape` and `ColorsOfObject` state its properties |
| PaletteHelper.Records | samples/highcharts/css/palette-helper/demo.js:288-310 | the loop's records, one per entry walked, in entry order; `RecordsAt` states what each one is |
| PaletteHelper.Record | samples/highcharts/css/palette-helper/demo.js:289-309 | defines what one entry puts into the theme: a nested theme for a truthy object, a palette colour for a string passing the hex test, else nothing; `ArrayRecordsNothing` and `BorderRecordsNoColor` state cases of it |
| PaletteHelper.Build | samples/highcharts/css/palette-helper/demo.js:288-310 | defines the theme after the loop has run over the first `n` entries; `BuildLookupAbsent`, `BuildLookupAt`, `BuildOrder` and `BuildEmpty` state its properties |
| PaletteHelper.ColorsShape | samples/highcharts/css/palette-helper/demo.js:285-313 | at every depth the result has no key twice and no empty nested theme, and every colour comes from the palette |
| PaletteHelper.RecordsAt | samples/highcharts/css/palette-helper/demo.js:288-309 | entry `i` of the loop records what its own value records |
| PaletteHelper.BuildLookupAbsent | samples/highcharts/css/palette-helper/demo.js:288-309 | a key the object does not have is not in its theme |
| PaletteHelper.BuildLookupAt | samples/highcharts/css/palette-helper/demo.js:288-309 | each key of the object reads, in the theme, what its own entry records, or nothing |
| PaletteHelper.BuildOrder | samples/highcharts/css/palette-helper/demo.js:288-309 | the theme's keys are the recording keys of the object, in the object's order |
| PaletteHelper.BuildEmpty | samples/highcharts/css/palette-helper/demo.js:288-312 | the theme is empty exactly when no entry records anything |
| PaletteHelper.ColorsOfObject | samples/highcharts/css/palette-helper/demo.js:286-312 | an object gives `undefined` exactly when none of its entries records anything, and otherwise a theme where each key reads what its value records |
| PaletteHelper.LookupColorInGeneratedPalette | samples/highcharts/css/palette-helper/demo.js:266-307 | with the generated palette a hex string finds a colour exactly when `colorMap` lists it |
| PaletteHelper.WhiteBecomesBackground | samples/highcharts/css/palette-helper/demo.js:267 | the default white becomes the chosen background colour |
| PaletteHelper.BorderColor | samples/highcharts/css/palette-helper/demo.js:298-300 | `1px solid #cccccc` passes the hex test but is no key of `colorMap` |
| PaletteHelper.BorderRecordsNoColor | samples/highcharts/css/palette-helper/demo.js:298-308 | such a string is recorded with an undefined colour |
| PaletteHelper.ArrayRecordsNothing | samples/highcharts/css/palette-helper/demo.js:286-291 | an array value records nothing: it is walked as an object, and the walk returns `undefined` for an array |

## Left out

- The chart's collaborators are parameters with no behaviour of their own: `chart.transform`, `isInsidePlot` and `Math.pow`. `pointer.normalize`, `inClass` and `getAssignedAxis` appear only as the fields of `WheelEvent` they produce. `addEvent` is modelled as adding to a listener list.
- `Math.pow` and floating point in general: `howMuch` and positions are exact reals, and the identities are stated over the reals.
- `setTimeout` and `clearTimeout` timing: the 400 ms quiet period is the explicit event `Quiet`. No wall clock is modelled.
- MouseWheelZoom.Merge: `merge` is modelled for the three keys of the wheel options. A key set explicitly to `undefined` or `null` is treated as not set, but Highcharts' `merge` copies such a key over the default. So for `mouseWheel: { enabled: undefined }` the code's `enabled` is falsy and no wheel listener is added, while `OptionsToObject` gives `enabled == true`. Deep merging of other keys is not modelled.
- A `NaN` `detail` or sensitivity counts as truthy in the model: only zero and an absent value are falsy.
- MouseWheelZoom.WheelZoomRuntime.AfterGetContainer: the listener keeps the chart's id, not a reference to it. `OnWheel` is handed the chart with that id as it is when the event arrives; that it is the same object is not modelled. The options, as in the code, are computed once, when the listener is added.
- `parseFloat` is not evaluated: a number token is kept as `ParseFloat(text)`. `pathToSegments` is a function parameter.
- `Map.mapChart` is not part of this model.
- JavaScript property order puts integer-like keys first. It is not modelled: object entries and theme keys keep insertion order.
- PaletteHelper.BuildLookupAt, `PaletteHelper.BuildOrder` and `PaletteHelper.ColorsOfObject` assume distinct keys in the input object, as every JavaScript object has them. With repeated keys, `Assign` still gives last-write-wins behaviour, but these lemmas do not describe it.
- `console.error` for a missing palette key or colour is not modelled. The key is still recorded, with an undefined colour.
- The DOM, `fetch` and the preview chart of the palette demo are not modelled. Neither are `Color.parse`, `tweenTo` and its fractional weights, or the option tree built by `buildDefaults`. The tweened colour of each weight is a function parameter, already parsed to three bytes.
- PaletteHelper.RgbToHex: channels are bytes, so the 32-bit operators of `rgbToHex` never overflow. Integer width is therefore not modelled, and the operators are computed on naturals.
- `chart.pointer?.drop()` is modelled by `FireTimer` reporting the chart to drop. What `drop` does is not modelled.
