# Inkscape card generator — a Dafny model of its layout and merge logic

The card generator fills an Inkscape SVG template with text and LaTeX
formulas. Two scripts carry its logic:

- `generate_svg.py` renders mixed text into a slot. A regular expression
  splits the text into `NEW_LINE`, `FORMULA` and `WORD` tokens. A fold then
  walks the tokens with an `(x, y)` cursor and wraps before any word or
  typeset formula that would cross the slot's right bound.
- `build.py` merges typeset formula SVGs into slots. It reads SVG lengths
  and `viewBox`es, measures the slot's rectangle, and computes a
  scale-to-fit with a 6% margin, a left, centre or right alignment and
  vertical centring. It prefixes the formula's definition ids and local
  references with the slot id, and puts a group in the slot's place among
  its parent's children.

The model is pure functions over immutable datatypes:

- `Text`, `Numbers`: Python's `str.strip`, `str.split`, `str.lower` and
  `float()` on strings, with `real` in place of IEEE doubles.
- `Tokenizer`: `PATTERN` and `split_text_into_tokens`, one function per
  alternative of the expression and a scan that plays `finditer`.
  `TokenizerExamples` works three inputs through it.
- `Layout`: `get_svg_width`, `set_slot_font_size` and `render_text_in_slot`.
  The PIL font measurement and the LaTeX renderer are function parameters.
- `SvgTree`: elements with a tag, an attribute map and children. A path of
  child indices stands in for Python's object identity.
- `Lengths`: `_parse_length`, `read_svg_size_and_origin` and
  `bbox_from_rect`.
- `Placement`: the scale and alignment arithmetic.
- `Prefixing`: the id and `href` rewriting.
- `FormulaImport`: `import_formula_into_template` without its file I/O.

## Model

| member | source | states |
|---|---|---|
| Text.Strip | generate_svg.py:56 | `str.strip()`: the result is an infix of the input that only whitespace surrounds, has no whitespace at either end, and is empty exactly when the input is all whitespace |
| Text.StripAround | generate_svg.py:56 | whitespace around a non-empty core with no whitespace at its ends strips back to exactly that core |
| Text.StripTrimmed | build.py:32 | a string with no whitespace at either end strips to itself |
| Text.Split | generate_svg.py:68 | `str.split()`: every part is non-empty and has no whitespace; there are no parts exactly when the input is all whitespace |
| Text.SplitCons | build.py:61 | a word, then whitespace, then a rest splits into that word followed by the split of the rest |
| Text.SplitAfterSpace | build.py:61 | leading whitespace does not change the split |
| Text.ReplaceChar | build.py:61 | `str.replace` of one character: same length, and every occurrence of the old character, and only those, becomes the new one |
| Text.LowerAscii | build.py:41 | `str.lower()` on letters: same length; `A`-`Z` map to `a`-`z` and every other character is kept |
| Text.VisibleAppend | generate_svg.py:38-47 | deleting whitespace distributes over concatenation |
| Numbers.ParseFloatInteger | build.py:40 | `float()` reads a string of decimal digits back as exactly the integer it denotes |
| Numbers.ParseFloatDecimal | build.py:40 | `float()` reads `whole.frac` back as whole + frac / 10^len(frac); either side may be empty, not both |
| Numbers.ParseFloatNegative | generate_svg.py:68 | a leading `-` negates the value `float()` reads |
| Numbers.NatToString | generate_svg.py:59 | the f-string text of an `int` is non-empty decimal digits that denote that number, with no leading zero |
| Numbers.FloatsOf | build.py:63 | `map(float, parts)` unpacked: succeeds exactly when every part converts; the values come in order, one per part; otherwise a `ValueError` |
| Numbers.FloatsOfFour | build.py:63 | four decimal integers convert to their four values, in order |
| Numbers.SplitFour | generate_svg.py:68 | four digit strings joined by single spaces split back into those four strings |
| Tokenizer.CloseEnd | generate_svg.py:22-27 | the body-then-close part of a delimited formula: a result ends just after an occurrence of the closing delimiter, with no newline and no earlier closing delimiter in between; no result means no closing delimiter is reachable that way |
| Tokenizer.Delimited | generate_svg.py:22-27 | a match of `open body close`: the opening delimiter is at the start, the closing one at the end, and the body holds neither a newline nor the closing delimiter |
| Tokenizer.DollarEnd | generate_svg.py:30 | the lazy `$…$` body: the match ends at the first unescaped `$` reachable through characters the body accepts, which are any character but a newline, and a `$` only when a digit follows it; no result means no such `$` is reachable |
| Tokenizer.DelimitedEnd | generate_svg.py:22-27 | the `$$…$$`, `\[…\]` and `\(…\)` alternatives: a match it reports starts with `$` or a backslash, is delimited by one of the four pairs and holds no newline |
| Tokenizer.DelimitedEndFence | generate_svg.py:22-27 | a match of one of those alternatives starts with that pair's opening delimiter and ends with its closing one |
| Tokenizer.SingleDollarEnd | generate_svg.py:30 | the `$…$` alternative: a match it reports is formula-shaped and newline-free, and neither of its dollars follows a backslash |
| Tokenizer.FormulaEnd | generate_svg.py:21-32 | the formula group: a match it reports starts with `$` or a backslash, is delimited by one of the four pairs and holds no newline |
| Tokenizer.NoFormulaAt | generate_svg.py:21-32 | no formula starts at a character other than `$` or a backslash |
| Tokenizer.DollarMatch | generate_svg.py:30 | an unescaped opening dollar, a lazy body and an unescaped closing dollar form a formula match |
| Tokenizer.DelimitedMatch | generate_svg.py:22-27 | a delimited match of any of the three fixed-delimiter pairs is a formula match |
| Tokenizer.BlankRunEnd | generate_svg.py:33 | the `[ \t]*` tail of a word: a maximal run of spaces and tabs |
| Tokenizer.WordEnd | generate_svg.py:33 | a word match starts at a non-space character, takes the maximal run of non-space characters and then only spaces and tabs, and stops before a newline |
| Tokenizer.Scan | generate_svg.py:38-47 | the matches of `finditer`: well-formed, in input order, non-overlapping; every character outside them is whitespace other than a newline |
| Tokenizer.ScanHead | generate_svg.py:19-47 | which alternative wins at a position: a newline matches itself; else a formula, when one matches, comes before a word; a word needs a non-space character; other whitespace is skipped |
| Tokenizer.Tokenize | generate_svg.py:38-47 | one token per match; each newline token is `"\n"`, each formula token is delimited and newline-free, and each word token has the word shape |
| Tokenizer.ExplainsSpans | generate_svg.py:38-47 | every match has the shape of its kind, and each starts after the previous one ends |
| Tokenizer.SpanShape | generate_svg.py:20-33 | the token text of a match has the shape its alternative allows |
| Tokenizer.ExplainsNewlines | generate_svg.py:20 | the number of newlines from the position on equals the number of newline matches |
| Tokenizer.NewlineTokens | generate_svg.py:38-47 | the number of `NEW_LINE` tokens equals the number of newlines in the input |
| Tokenizer.GappedVisible | generate_svg.py:38-47 | without whitespace, the input equals the concatenated texts of the matches |
| Tokenizer.TokensKeepVisibleText | generate_svg.py:38-47 | deleting whitespace from the input and from the concatenated token texts gives the same string: only whitespace is lost |
| TokenizerExamples.SampleScan | generate_svg.py:19-47 | `Hello $x^2$ world` scans to a word with its trailing space, a formula, and a word; the space after the formula is skipped |
| TokenizerExamples.SampleTokens | generate_svg.py:38-47 | the tokens of that line are `WORD "Hello "`, `FORMULA "$x^2$"`, `WORD "world"` |
| TokenizerExamples.EmptyDollarPair | generate_svg.py:30 | in `$$ x` the unclosed `$$` alternative fails, and the single-dollar alternative matches `$$` with an empty body |
| TokenizerExamples.PairScan | generate_svg.py:19-47 | `$$ x` scans to the formula `$$` and the word `x` |
| TokenizerExamples.DigitAfterDollar | generate_svg.py:30 | in `$5 and $6` the formula runs from the first `$` to the unescaped `$` before `6`, which closes it although a digit follows: the closing `$` is tried before the lazy body steps on |
| TokenizerExamples.EscapedDollarDigit | generate_svg.py:30 | a `$` after a backslash cannot close; the lazy body steps over it when a digit follows (`$a\$5$` is one formula) and otherwise fails (`$a\$b$` has none) |
| TokenizerExamples.PricesScan | generate_svg.py:19-47 | `$5 and $6` scans to the formula `$5 and $` and the word `6` |
| Layout.SvgWidth | generate_svg.py:63-72 | the third number of a non-empty `viewBox` of exactly four whitespace-separated numbers; otherwise `0.0` |
| Layout.SvgWidthOfViewBox | generate_svg.py:63-72 | a `viewBox` of four decimal integers gives its third as the width |
| Layout.SetSlotFontSize | generate_svg.py:55-60 | the result starts with the stripped old style and ends with `font-size:{n}px;`; its length adds exactly one separator when the stripped style is non-empty and lacks a final `;` |
| Layout.SetSlotFontSizeSeparates | generate_svg.py:55-60 | what precedes the declaration is empty or ends with `;` |
| Layout.Place | generate_svg.py:91-93 | a wrapped position ends inside the bound or is at the line start with a too-wide width; y stays or grows by one line height |
| Layout.Step | generate_svg.py:88-120 | one token: y stays or grows by one line height; an emitted item lies on the cursor's new line and fits; `NEW_LINE` emits nothing, moves down one line and resets x; a formula the renderer refuses leaves the cursor unchanged and emits nothing |
| Layout.StepWrap | generate_svg.py:89-116 | the wrap rule: a word or rendered formula that would end past `x_start + slot_width` goes to `x_start`, one line height down, else at the cursor; the cursor then moves past its width, plus 5 after a formula; a formula group carries the rendered children and is translated to `(x, y - 28 * 0.82)` |
| Layout.Layout | generate_svg.py:87-120 | the fold: y never decreases; every placed item lies between the start and final y and fits; at most one item per token |
| Layout.LayoutRising | generate_svg.py:87-120 | items are placed on non-decreasing lines |
| Layout.LayoutKeepsWords | generate_svg.py:89-101 | the text runs appended are exactly the word tokens' texts, in order, so there are as many text elements as `WORD` tokens |
| Layout.LayoutKeepsFormulas | generate_svg.py:103-116 | the groups appended carry exactly the rendered formulas' children, in order, skipping formulas the renderer refused |
| Layout.LinesDownIs | generate_svg.py:80 | n line breaks move down n times 28 * 1.3 |
| Layout.LayoutDescends | generate_svg.py:118-120 | the final y is at least the start y plus one line height per `NEW_LINE` token |
| Layout.LayoutLeftBound | generate_svg.py:82-120 | with non-negative widths, nothing is placed left of `x_start` |
| Layout.FloatAttr | generate_svg.py:77 | `float(slot.get(name))`: a missing attribute is a `TypeError`, an unreadable one a `ValueError`, otherwise its value |
| Layout.SlotFrame | generate_svg.py:77-85 | the frame and first cursor of a slot: lines start at `x + 10` and the first baseline is at `y + 40`; the slot's errors propagate, the width's first |
| Layout.Styled | generate_svg.py:76 | the slot gets a `style` ending with `font-size:28px;`; every other attribute, the children and the tag are kept |
| Layout.RenderTextInSlot | generate_svg.py:74-120 | no element with the id is an `IndexError`; otherwise the slot is restyled in place and the appended items are exactly the fold over the text's tokens from the slot's frame |
| SvgTree.ReplaceAt | build.py:183-193 | the element at the path becomes the new one; the root keeps its tag, attributes and number of children |
| SvgTree.ReplaceChild | build.py:186-189 | replacing a child puts the new element at the same index; the siblings before and after are unchanged and the parent keeps its tag and attributes |
| SvgTree.ReplaceElsewhere | build.py:183-193 | replacing at one path leaves every disjoint path's element unchanged |
| SvgTree.FindIn | build.py:109 | a matching element inside the subtree of a child at or after the given index; none means no such subtree holds a match |
| SvgTree.FindDescendant | build.py:119 | `find(".//…")`: a matching element strictly below the element; none exactly when no child's subtree holds one |
| SvgTree.FindFirst | generate_svg.py:75 | a matching element of the whole document, root included; none exactly when the document holds none |
| SvgTree.FirstChildWithTag | build.py:104 | `find("svg:defs")`: the first child with the tag, every earlier child having another tag; none when no child has it |
| Lengths.UnitFactor | build.py:42-52 | the known units are `""`, `px`, `pt`, `in`, `cm` and `mm`, each with a positive factor |
| Lengths.LeadingNumber | build.py:37 | the numeral group `[0-9]*\.?[0-9]+` at the start: the longest numeral prefix, so no longer prefix is a numeral; none exactly when no prefix is a numeral |
| Lengths.LengthParts | build.py:37-41 | a matched length splits as a numeral, optional whitespace, a unit of ASCII letters and optional whitespace; the number is the numeral's `float()` value, non-negative, and the unit is the letters as written |
| Lengths.LengthPartsShape | build.py:37-41 | conversely, every string of that shape matches, giving its numeral's value and its letters |
| Lengths.LeadingIsNumeral | build.py:37 | in a string of that shape the numeral group is the shape's numeral |
| Lengths.LengthPartsOf | build.py:37-41 | digits followed by letters split into that number and that unit |
| Lengths.ParseLength | build.py:29-52 | none for a missing, blank or `%`-ending value; a result is non-negative, and it is the stripped text's numeral value scaled by the factor of its lower-cased unit, the text having the pattern's shape |
| Lengths.ParseLengthOf | build.py:29-52 | any value of the pattern's shape, with whitespace around it and before the unit, reads as its numeral's value scaled by the lower-cased unit's factor, and none for a unit outside the table |
| Lengths.ParseLengthDecimal | build.py:37-52 | a decimal such as `1.5` or `.5` followed by a unit reads as the decimal's value scaled by the lower-cased unit |
| Lengths.ParseLengthDecimalTable | build.py:42-51 | a decimal followed by a unit of the table reads as the decimal's value scaled by that unit |
| Lengths.SpacedPixels | build.py:31-52 | ` 12 PX ` reads as 12 pixels |
| Lengths.ParseLengthUnit | build.py:37-52 | digits then a unit give the number scaled by the lower-cased unit's factor |
| Lengths.ParseLengthTable | build.py:42-51 | for each unit of the table (`""`/`px` x1, `pt` x96/72, `in` x96, `cm` x96/2.54, `mm` x96/25.4), digits then that unit parse to the number in that unit with that factor |
| Lengths.TableScale | build.py:42-51 | a value in a table unit is that value times the unit's factor |
| Lengths.ParseLengthCase | build.py:41 | units match regardless of letter case |
| Lengths.ParseLengthUnknownUnit | build.py:52 | any other unit gives none |
| Lengths.ParseLengthRejects | build.py:37-39 | sign-prefixed and trailing-point numbers give none |
| Lengths.OrOne | build.py:68-70 | `w or 1.0`: never zero, and a non-zero value is kept |
| Lengths.ReadSvgSizeAndOrigin | build.py:54-71 | a non-empty `viewBox` of four comma- or space-separated parts is read verbatim as origin and size, with a part that is not a number as a `ValueError`; otherwise the origin is `(0, 0)` and each side is its length, or 1 when that is missing, unreadable or zero |
| Lengths.FallbackPositive | build.py:66-71 | the fallback never gives a zero or negative size |
| Lengths.ViewBoxVerbatim | build.py:59-64 | a comma-separated `viewBox` of four integers is returned as is |
| Lengths.BboxFromRect | build.py:88-93 | `x` and `y` default to `"0"`, and `width` and `height` are required; the result holds the four converted values, and it is an error exactly when one of them is missing or not a number |
| Lengths.BboxDefaultsOrigin | build.py:88-93 | for a rectangle without `x` and `y`: the box is read exactly when `width` and `height` are present and numbers, and it then sits at the origin |
| Placement.FitScale | build.py:148-153 | the scale is positive; with positive sizes the scaled formula fits the slot less a 6% margin per side and touches that box in width or height |
| Placement.FitScaleLargest | build.py:151 | no larger scale fits |
| Placement.AlignOf | build.py:155 | the configured alignment, else `center` |
| Placement.Fit | build.py:148-168 | the group's scale is the fit scale |
| Placement.AlignLeft | build.py:158-162 | left alignment puts the drawing's left edge one margin inside the slot |
| Placement.AlignRight | build.py:160-164 | right alignment puts its right edge one margin inside the slot |
| Placement.AlignCenter | build.py:159-166 | any other alignment leaves equal gaps left and right |
| Placement.CentredVertically | build.py:168 | equal gaps above and below, whatever the alignment |
| Placement.FitsInside | build.py:148-168 | with positive sizes every alignment keeps the drawing inside the slot less its margins |
| Prefixing.PrefixRef | build.py:143-146 | `#name` becomes `#` + prefix + `name`; anything else is kept |
| Prefixing.RewriteAttrs | build.py:139-146 | the same attribute names; a non-empty `id` gets the prefix when ids are renamed; local `href`/`xlink:href` references get it; other references and all other attributes are kept |
| Prefixing.PrefixTree | build.py:136-147 | the rewritten clone keeps the tag, the attribute names and the number of children |
| Prefixing.DefinitionIds | build.py:139-142 | after renaming, the ids of a definition are exactly its old ids with the prefix |
| Prefixing.DefinitionIdsAll | build.py:136-147 | the same for all definitions |
| Prefixing.BodyIds | build.py:177-181 | the body's ids are unchanged |
| Prefixing.BodyIdsAll | build.py:171-182 | the same for the whole body |
| Prefixing.PrefixRefs | build.py:143-146 | the local references of a rewritten tree are exactly the old ones with the prefix |
| Prefixing.PrefixRefsAll | build.py:171-182 | the same for a list of trees |
| Prefixing.OwnRefsPrefixed | build.py:143-146 | the same for one element's attributes |
| Prefixing.ReferencesStayResolved | build.py:133-147 | if every reference of a formula named one of its definitions, every rewritten reference names a renamed definition |
| FormulaImport.PrepareDefs | build.py:103-107 | the template's first `defs` child, or a new empty `defs` inserted first |
| FormulaImport.FindSlot | build.py:109-111 | the first element in document order below the root with the id; only when there is none, the first with the Inkscape label; any element with the id wins over a label; none exactly when neither exists below the root |
| FormulaImport.SlotBox | build.py:115-122 | a `rect` slot's own box, else its first descendant `rect`'s; a `RuntimeError` when it has none |
| FormulaImport.NonZero | build.py:129-131 | a zero side becomes 1, any other is kept |
| FormulaImport.MergedDefs | build.py:133-147 | the children of the formula's first `defs`, ids and references prefixed; nothing when it has no `defs` |
| FormulaImport.BodyOf | build.py:171-182 | the group's children: no top-level `defs` is copied |
| FormulaImport.BodyIsDrawnPrefixed | build.py:171-182 | the group's children are exactly the non-`defs` children, in order, each with only its references rewritten |
| FormulaImport.ContentGroup | build.py:170 | a `g` with id `{slot}_content`, the fit transform and the prefixed drawing |
| FormulaImport.AppendDefs | build.py:147 | the definitions go at the end of the template's `defs`; every other child of the root is unchanged |
| FormulaImport.PlaceFormula | build.py:133-193 | the group stands at the slot's path; the warnings and the root's tag are kept |
| FormulaImport.ReplacedInPlace | build.py:183-193 | the group takes the slot's index among its parent's children; siblings before and after are unchanged |
| FormulaImport.OutsideUnchanged | build.py:183-193 | every element outside the slot's subtree and outside the `defs` is unchanged |
| FormulaImport.DefsGainPrefixedIds | build.py:133-147 | the template's `defs` gains exactly the formula's definition ids with the slot prefix |
| FormulaImport.ImportSlot | build.py:108-193 | a missing slot only adds its id to the warnings; an error reading the slot's box aborts with that error, then an error reading the formula's size; otherwise the result is the slot replaced by the formula fitted from the slot's box and the formula's box with zero sides read as 1, and the slot's path holds the `{slot}_content` group |
| FormulaImport.ImportAll | build.py:108-193 | a successful import keeps the root's tag and a `defs` index that points at a child |
| FormulaImport.MissingSlotSkipped | build.py:112-114 | a slot that is not found is skipped and the remaining slots are still processed |
| FormulaImport.WarningsFromJobs | build.py:108-114 | the warnings only grow, and each new one is the id of a processed slot |
| FormulaImport.ImportFormulaIntoTemplate | build.py:95-194 | the merged document keeps the template's root tag; every warning names a slot of the table; an empty table succeeds with no warning |

## Left out

- `latex_svg.py`, `main` (generate_svg.py:122-135), `generate_formula_svg` and `build_all` (build.py:73-83, 196-216). They run LaTeX and dvisvgm as subprocesses and read YAML, CSV and files. The formula renderer is a function parameter.
- `generate_svg_inline_test.py` is a demonstration script; its width helper behaves like `get_svg_width`.
- PIL's `font.getlength` (generate_svg.py:49-50) is a foreign call. It is the `measure` parameter.
- XML parsing and serialisation, namespace registration and XPath syntax are left out; documents are trees of `SvgTree.Element`. Text content, tails and the XML declaration are not modelled.
- Floating point is exact `real` arithmetic. The decimal text of the `x`, `y` and `transform` attributes the scripts write is not modelled; positions and transforms are kept as numbers.
- `float()` of `inf`, `nan`, underscores and non-ASCII digits is not modelled; such strings read as not-a-number. The pattern's `\d` and `\s` are the ASCII digits and Python's whitespace characters.
- `get_svg_width` parses the renderer's output text and returns `0.0` when that fails. The model takes the parsed tree, so unparseable output is not modelled.
- `apply_text_style`'s literal style string is not modelled.
- The tags of the `text` and `g` elements `render_text_in_slot` appends are not modelled; the appended items record position, width and content.
- A slot id containing a quote changes the XPath expression in the source. The model looks the id up as a literal.
- When a slot's box or the formula's size cannot be read, the source raises after it may already have changed the document. `render_text_in_slot` likewise restyles the slot before it reads `width`, `x` and `y`. The model returns the error alone in both cases.
- If a slot is the template's `defs` element itself, the source replaces it and later definitions go to the detached element. The model drops them and records this in `State.defs`.
- Layout.LayoutLeftBound: requires non-negative widths from `measure` and from `get_svg_width`; the source states no such promise.
- Lengths.ParseLengthTable: states the result through `ScaleBy` and the table's factor; Lengths.TableScale gives the product separately.
- Tokenizer.Scan: its contract allows other segmentations of the text; Tokenizer.ScanHead fixes which alternative wins at each position, relative to Tokenizer.FormulaEnd and Tokenizer.WordEnd.
- Tokenizer.FormulaEnd: states only that a reported match is a formula. Tokenizer.DelimitedEnd, Tokenizer.DelimitedEndFence and Tokenizer.SingleDollarEnd state the same, and the delimiters, for their alternatives. When a match is found, and which alternative wins, is stated for the bodies by Tokenizer.CloseEnd and Tokenizer.DollarEnd in both directions, and on the examples in TokenizerExamples.
- SvgTree.FindFirst, SvgTree.FindDescendant and SvgTree.FindIn: state that the element found matches, not that it is the first match in document order as ElementTree's `find` returns it.
- FormulaImport.ImportAll: does not state in its contract that the first error ends the loop; FormulaImport.MissingSlotSkipped and FormulaImport.WarningsFromJobs state how missing slots are handled.
- Layout.LayoutDescends: counts the descent in whole line heights through `LinesDown`; Layout.LinesDownIs relates that to multiplication.
