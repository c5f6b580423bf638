# Annotation parser: a Dafny model

`Ils\AnnotationParser` reads PHP docblocks with three regular expressions:

- `hasDocBlock` says whether a value is a string delimited as a docblock
  (`DOCBLOCK_PATTERN`).
- `getAnnotations` maps every `@tag value` line of a docblock to its value
  (`ANNOTATION_PATTERN`). A later line with the same tag wins.
- `getDescription` joins the free-text lines of a docblock with single spaces
  (`DESCRIPTION_PATTERN`).

The last two return an empty result unless `hasDocBlock` holds.

## What the model is

The model works on characters. DOCBLOCK_PATTERN (line 7) is read as what
it accepts: some offset where `.*` may stop and `*/` then closes the text.
The two line patterns (lines 8-9) are deterministic matchers. In them every
greedy repetition is followed by an atom it cannot match, so backtracking
never changes the outcome.

`preg_match_all` is a scan: the pattern is tried at every offset where a
multiline `^` holds. After a match the scan resumes at the match's end.
Otherwise it moves one character on.

Strings are `seq<char>`, with one character per byte. PHP values that are not
strings are a single `NonString` case, since the parser only asks `is_string`
of them.

- `text.dfy` (`Text`): the character classes `\s`, `[a-zA-Z]` and `.`, plus:
  - greedy runs (`RunEnd`);
  - line ends;
  - `implode` (`Join`).
- `scanner.dfy` (`Scanner`): the generic `preg_match_all` scan and what it
  guarantees.
- `patterns.dfy` (`Patterns`): the three patterns. Each has a matcher and a
  declarative description of the text it accepts, with soundness and
  completeness lemmas between the two.
- `parser.dfy` (`Parser`): `HasDocBlock`, `GetAnnotations` and
  `GetDescription`.
- `lines.dfy` (`Lines`): an independent reference reading.
  - The text is split at newlines and each line is classified on its own
    as `Tag`, `Desc` or `Other`.
  - The two readings give the same annotations and the same description,
    except where a `\s` of a pattern takes a newline and the match runs on
    into the next line. This happens in two cases:
    - a line holding only `*` and whitespace;
    - a tag name that ends its line.
  - `NoSpill` rules out exactly those two cases.
- `examples.dfy` (`Examples`): the inputs and expected results of both test
  suites where they agree with the code, proved about the model. It also
  holds two instances of the newline-crossing behaviour:
  - a match that starts on a bare `*` line;
  - a tag name that ends its line, so the next line becomes its value and
    also feeds the description.

## Model

| member | source | states |
|---|---|---|
| Parser.HasDocBlock | src/Ils/AnnotationParser.php:17-24 | false for non-strings and for the empty string; otherwise true exactly when the text opens with `/**` and closes with `*/` (or `*/` and one newline) without the markers overlapping; a text it accepts has at least five characters |
| Patterns.DocBlockPatternExact | src/Ils/AnnotationParser.php:7 | the pattern read literally (slash-star-star, anything including newlines, star-slash at `$` without the D flag) accepts exactly the delimited texts |
| Patterns.DelimitedChars | src/Ils/AnnotationParser.php:7 | the delimited-text condition, character by character |
| Patterns.MatchAnnotation | src/Ils/AnnotationParser.php:8 | a match of ANNOTATION_PATTERN at the front of a text is non-empty, stays inside the text and ends where `$` holds |
| Patterns.MatchAnnotationSound | src/Ils/AnnotationParser.php:8 | the matched text is a star, whitespace, `@`, a tag of letters, one whitespace character and a value that is non-empty and holds no newline, and the captures are that tag and value |
| Patterns.MatchAnnotationComplete | src/Ils/AnnotationParser.php:8 | every prefix ending at `$` with that shape is exactly what the matcher finds |
| Patterns.MatchDescription | src/Ils/AnnotationParser.php:9 | a match of DESCRIPTION_PATTERN is non-empty, stays inside the text and ends where `$` holds |
| Patterns.MatchDescriptionSound | src/Ils/AnnotationParser.php:9 | the matched text is a star, whitespace and a fragment of at least two characters on one line, whose first character is not `@`, `/`, `*` or whitespace |
| Patterns.MatchDescriptionComplete | src/Ils/AnnotationParser.php:9 | every prefix ending at `$` with that shape is exactly what the matcher finds |
| Patterns.AnnotationExcludesDescription | src/Ils/AnnotationParser.php:8-9 | where ANNOTATION_PATTERN matches, DESCRIPTION_PATTERN does not |
| Patterns.MatchersWellBehaved | src/Ils/AnnotationParser.php:8-9 | neither pattern matches the empty string or claims more than the text it was given |
| Scanner.ScanMatches | src/Ils/AnnotationParser.php:39 | every hit of the `preg_match_all` scan is a real match of the pattern at a line start, at or after where the scan began |
| Scanner.ScanOrdered | src/Ils/AnnotationParser.php:39 | the hits come in text order and do not overlap |
| Scanner.ScanComplete | src/Ils/AnnotationParser.php:39 | every line start where the pattern matches is a hit unless an earlier hit covers it |
| Parser.TagHits | src/Ils/AnnotationParser.php:39 | the annotation hits over the whole text are real matches at line starts, in order and without overlap |
| Parser.DescriptionHits | src/Ils/AnnotationParser.php:61 | the description hits over the whole text are real matches at line starts, in order and without overlap |
| Parser.AnnotationHitSound | src/Ils/AnnotationParser.php:39 | an annotation hit runs from a line start to a line end and has the annotation shape; the `\s` runs may take newlines, so it can span several lines |
| Parser.DescriptionHitSound | src/Ils/AnnotationParser.php:61 | a description hit ends at a line end and has the description shape |
| Parser.TagAndDescriptionDisjoint | src/Ils/AnnotationParser.php:8-9 | no offset starts both an annotation hit and a description hit |
| Parser.Assign | src/Ils/AnnotationParser.php:41-43 | the keys of the map are exactly the tags that occur, and each key holds the value of its tag's last occurrence |
| Parser.AssignLastWins | src/Ils/AnnotationParser.php:41-43 | one more pair overwrites its own tag and leaves the other keys as they were |
| Parser.AssignAppend | src/Ils/AnnotationParser.php:41-43 | assigning two runs of pairs one after the other is the right-biased union of assigning each |
| Parser.GetAnnotations | src/Ils/AnnotationParser.php:31-46 | empty when there is no docblock; every key is a non-empty string of ASCII letters; every value is non-empty and on one line; every pair was matched in the text from a line start to a line end, possibly across newlines taken by `\s` |
| Parser.AssignedFromText | src/Ils/AnnotationParser.php:39-43 | each pair left after the loop has the key and value shape and was matched in the text from a line start to a line end |
| Parser.AnnotationKept | src/Ils/AnnotationParser.php:39-43 | in a docblock, the tag of every annotation matched at a line start that no earlier match swallowed is a key of the result |
| Parser.GetDescription | src/Ils/AnnotationParser.php:53-64 | empty when there is no docblock; within a docblock empty exactly when no description line matched; never holds a newline |
| Text.RunEnd | src/Ils/AnnotationParser.php:8-9 | a greedy repetition takes the longest run of its class and stops at the first character outside it |
| Text.JoinNoNewline | src/Ils/AnnotationParser.php:63 | `implode` of one-line parts with a one-line separator is one line |
| Text.JoinEmpty | src/Ils/AnnotationParser.php:63 | `implode` of non-empty parts is empty exactly when there are no parts |
| Text.JoinEnds | src/Ils/AnnotationParser.php:63 | `implode` opens with the first part and closes with the last, with the separator between them when there are two parts or more |
| Lines.ClassifyLineSpec | src/Ils/AnnotationParser.php:8-9 | a single line is a tag line exactly when it has the annotation shape, and a description line exactly when it has the description shape |
| Lines.DescriptionLine | src/Ils/AnnotationParser.php:9 | a line `* d`, with `d` a valid fragment, is a description line |
| Lines.TagLine | src/Ils/AnnotationParser.php:8 | a line `* @tag value` is a tag line |
| Lines.OtherLine | src/Ils/AnnotationParser.php:8-9 | a line not opening with `*`, a bare `*` and `*/` are neither tag nor description lines |
| Lines.ClassifiedLineSafe | src/Ils/AnnotationParser.php:8-9 | a tag line or description line never lets a pattern run on into the next line |
| Lines.AnnotationLocal | src/Ils/AnnotationParser.php:8 | at a safe line, ANNOTATION_PATTERN sees the same thing whether or not the rest of the text follows |
| Lines.DescriptionLocal | src/Ils/AnnotationParser.php:9 | at a safe line, DESCRIPTION_PATTERN sees the same thing whether or not the rest of the text follows |
| Lines.ScanIsLineByLine | src/Ils/AnnotationParser.php:39-63 | when the pattern agrees with the classifier on every line, the scan's captures are the classifier's picks, line by line, in order |
| Lines.TagLinesAgree | src/Ils/AnnotationParser.php:8 | without spill, ANNOTATION_PATTERN agrees with the classifier on every line |
| Lines.DescriptionLinesAgree | src/Ils/AnnotationParser.php:9 | without spill, DESCRIPTION_PATTERN agrees with the classifier on every line |
| Lines.TagHitIsLine | src/Ils/AnnotationParser.php:39 | without spill, an annotation hit ends where the line it starts on ends |
| Lines.DescriptionHitIsLine | src/Ils/AnnotationParser.php:61 | without spill, a description hit ends where the line it starts on ends |
| Lines.TagAndDescriptionLinesDisjoint | src/Ils/AnnotationParser.php:39-63 | without spill, the text of every annotation hit and the text of every description hit are apart, with a newline between them, so no line feeds both results |
| Lines.AnnotationsByLine | src/Ils/AnnotationParser.php:31-46 | without spill, `getAnnotations` is the in-order assignment of the tag lines, or empty outside a docblock |
| Lines.DescriptionByLine | src/Ils/AnnotationParser.php:53-64 | without spill, `getDescription` is the single-space join of the description lines in source order, or empty outside a docblock |
| Lines.JoinedLinesAt | src/Ils/AnnotationParser.php:39 | a text joined from newline-free lines with newlines consists of those lines |
| Lines.LineKindsOfLines | src/Ils/AnnotationParser.php:39 | the line view of a text made of given lines is the classification of those lines |
| Lines.NoSpillOfLines | src/Ils/AnnotationParser.php:8-9 | a text made of lines whose neighbouring pairs are safe has no spill |
| Examples.AcceptedEmptyDocBlock | tests/IlsTest/AnnotationParserTest.php:115 | `/***/` is a docblock |
| Examples.AcceptedInlineDocBlock | tests/IlsTest/AnnotationParserTest.php:116 | `/** @foo bar **/` is a docblock |
| Examples.AcceptedMultilineDocBlock | tests/IlsTest/AnnotationParserTest.php:117-119 | the three-line docblock with a tags line is a docblock |
| Examples.RejectedNoText | tests/IlsTest/AnnotationParserTest.php:126-127 | null (a non-string) and the empty string are not docblocks |
| Examples.RejectedPlainText | tests/IlsTest/AnnotationParserTest.php:128 | `Test` is not a docblock |
| Examples.RejectedPlainComment | tests/IlsTest/AnnotationParserTest.php:129 | `/* @covers foo */` is not a docblock |
| Examples.RejectedUnclosed | tests/IlsTest/AnnotationParserTest.php:130-133 | docblocks that are never closed are not docblocks |
| Examples.RejectedOverlap | src/Ils/AnnotationParser.php:7 | `/**/` is not a docblock, because the closing marker may not reuse the opening star |
| Examples.NoDocBlockResults | tests/IlsTest/AnnotationParserTest.php:74-96 | a non-string (the array of the test) gives an empty description; the empty string and plain text give no annotations |
| Examples.EmptyDocBlockAnnotations | tests/Ils/AnnotationParserTest.php:62-63 | the empty string and the empty docblock `/***/` give no annotations |
| Examples.EmptyDocBlockDescription | tests/Ils/AnnotationParserTest.php:81-82 | the empty string and the empty docblock `/***/` give an empty description |
| Examples.DocLinesResults | src/Ils/AnnotationParser.php:31-64 | any docblock shaped like the test fixture (opening line, bare stars, two description lines, two tag lines, closing line) gives the two fragments joined by a space and the map of the two tags |
| Examples.FixtureDescription | tests/IlsTest/AnnotationParserTest.php:62-69 | the fixture's description is `The description Another description` |
| Examples.FixtureAnnotations | tests/IlsTest/AnnotationParserTest.php:101-110 | the fixture's annotations are `category` to `test` and `tags` to `test one two three` |
| Examples.DanglingTagHits | src/Ils/AnnotationParser.php:8 | in the docblock `/**`, `* @tag`, `* d`, `*/`, the `\s` after the tag name takes the newline: the one annotation hit runs from the tag line to the end of the next line, with `* d` as its value |
| Examples.DanglingDescriptionHits | src/Ils/AnnotationParser.php:9 | in the same docblock, the one description hit is the line `* d`, with fragment `d` |
| Examples.DanglingTagFeedsBoth | src/Ils/AnnotationParser.php:31-64 | for every tag name and fragment `d`, that docblock gives the map of the tag to `* d` and the description `d`, so the line `* d` feeds both results |
| Examples.DanglingDocResults | src/Ils/AnnotationParser.php:31-64 | `/**`, `* @tag`, `* foo bar`, `*/` gives `tag` mapped to `* foo bar` and the description `foo bar` |
| Examples.SpillAfterBareStar | src/Ils/AnnotationParser.php:8 | after a bare `*` line the pattern's `\s*` takes the newline, so `@tag value` on the next line is matched from the `*` line, although neither line is a tag line on its own |

## Left out

- `extractDocBlock` and `parse` are called by tests/Ils/AnnotationParserTest.php but are not defined in src/Ils/AnnotationParser.php, so they are not part of this model.
- The expectations of tests/Ils/AnnotationParserTest.php for its own fixture are not modelled. That fixture's lines open with a space, and text follows its closing marker. Both are rejected by the column-0 `^\*` of lines 8-9 and by the anchored line 7, so the file contradicts the code, and the model follows the code. Its checks on `''` and `/***/` agree with the code and are modelled.
- Parser.GetAnnotations: the result is a Dafny `map`, so the insertion order of the PHP array is not modelled; only keys and values are.
- Full PCRE is not modelled: backtracking, Unicode `\s`, locale-dependent classes. Only the ASCII classes these three patterns use are. Each character stands for one byte.
- PHP's loose `$block == ''` comparison: every non-string is one `NonString` case, and for strings the comparison is plain emptiness, which is what it reduces to once `is_string` holds.
- The test fixture is taken as its nine lines joined by `\n`, with no newline after the last, which is how PHP reads a heredoc in a file with `\n` line ends.
- Lines.AnnotationsByLine, Lines.DescriptionByLine: the line-by-line reading is proved equal to the parser only under `NoSpill`. The character-level model in `Parser` covers every input, including a match that runs across a line end.
- Parser.TagAndDescriptionDisjoint: states only that no offset starts both hits. A line can feed both results when a tag name ends its line (Examples.DanglingDocResults). The line-level statement is Lines.TagAndDescriptionLinesDisjoint, which holds only under `NoSpill`.
- Parser.GetDescription: its own contract does not state which fragments are joined or in what order. That is stated by Lines.DescriptionByLine, which holds only under `NoSpill`; for text that spills across a line end, only the emptiness and one-line properties are proved.
