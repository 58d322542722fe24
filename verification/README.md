# GEDCOM individual-record importer, modelled in Dafny

This project models `GedComImporter`, the part of the genealogy application
that reads a GEDCOM file, already split into lines, and turns every
individual record into a `Person`. A GEDCOM line has the shape
`<level> [@xref@] <tag> [value]`.

The importer works like this:

- `analyzeList` matches every line against the header pattern
  `0\s\@I([\w\d]+)\@\sINDI`.
- For each header it appends a new Person and runs a do-while lookahead over
  the following lines. The lookahead goes on while the next line exists and
  does not start with `0`.
- On each line of that block it runs `extractName`, `extractSex` and
  `extractBirthInformation`.
- On a `1\sBIRT` line, `extractBirthInformation` runs a second do-while over
  the lines that follow. That loop goes on while the next line starts with
  `2`, and applies `extractBirthday` and `extractBirthplace` (through
  `extractPlace`) to each line.

The modules:

- `JavaRegex`: the pieces of `java.util.regex` the six patterns rely on.
  - Java's `\s`, `\d`, `\w` and `.` classes.
  - The leftmost-start search of `Matcher.find()` (`First`).
  - The longest-first order of a greedy quantifier (`Last`).
- `GedcomPatterns`: one hand-written matcher per pattern.
  - A declarative predicate says that the pattern matches at a start with
    given group lengths (`HeaderAt`, `NameAt`, `SexAt`, `BirtAt`, `DateAt`,
    `PlaceAt`).
  - A `...Spec` lemma proves that the extractor returns exactly the groups of
    the match `find()` reports, and nothing when no match exists.
- `Domain`: the Person entity, whose fields are all optional, and the Date
  that the date parser yields.
- `Importer`: `analyzeList` as functions of the line list.
  - The Person is threaded through as a value.
  - An `IndexOutOfBoundsException` is a `Failure(IndexOutOfBounds(index, size))`.
  - The scanner takes a table of line rules (`Rules`). `GedcomRules(parse)` is
    the importer's own table, with `SimpleDateFormat` as the parameter `parse`.
- `ImporterSpec`: a reference reading of the importer, stated without its
  loops.
  - Each do-while processes exactly the lines up to `LookaheadEnd`.
  - Each field of a record's Person is the value of the last successful match
    among the lines that feed it (`LastMatch`, `Refine`, `RecordPerson`).
  - The output holds one Person per header line, in order (`PersonsOf`),
    unless a lookahead reads past the last line (`OverrunsFrom`).
- `ImporterProofs`: the loop-shaped functions equal the reference reading,
  for every rules table.
- `GedcomImport`: the same statement with the importer's own patterns, plus
  the shape of every field a Person can carry.
- `ImporterLoops`: methods with the Java code's own `for` and do-while loops.
  Each is proved to compute the functional model.
- `Samples`: the extractors and the whole scan on concrete lines.

## Model

| member | source | states |
|---|---|---|
| JavaRegex.First | src/main/java/de/jonasrotert/stammbaum/importer/service/GedComImporter.java:151 | `find()` reports the least start in the range at which the pattern matches, and reports none only when no start matches |
| JavaRegex.Last | src/main/java/de/jonasrotert/stammbaum/importer/service/GedComImporter.java:106 | a greedy group settles on the greatest length for which the rest of the pattern succeeds, and on none only when no length does |
| JavaRegex.RunEnd | src/main/java/de/jonasrotert/stammbaum/importer/service/GedComImporter.java:146 | a run of one character class starting at a position is maximal: every character in it is in the class, and the character after it is not |
| GedcomPatterns.HeaderIdForced | src/main/java/de/jonasrotert/stammbaum/importer/service/GedComImporter.java:146 | a header match has only one possible identifier length, because `@` is not a word character |
| GedcomPatterns.GedcomIdSpec | src/main/java/de/jonasrotert/stammbaum/importer/service/GedComImporter.java:145-156 | `getGedComId` returns null exactly when the header pattern matches nowhere in the line; otherwise it returns the identifier group of the leftmost match, i.e. the word run after `@I` without the `I` |
| GedcomPatterns.LastNameLength | src/main/java/de/jonasrotert/stammbaum/importer/service/GedComImporter.java:106 | the `lastName` group followed by `/` takes the longest fitting length, so it runs to the last `/` reachable without a line terminator |
| GedcomPatterns.NameGroupsGreedy | src/main/java/de/jonasrotert/stammbaum/importer/service/GedComImporter.java:106 | at a given start, every possible name match has a first name no longer than the chosen one, and if equally long, a last name no longer |
| GedcomPatterns.ExtractNameSpec | src/main/java/de/jonasrotert/stammbaum/importer/service/GedComImporter.java:104-112 | `extractName` finds nothing exactly when the name pattern matches nowhere; otherwise it returns both groups of the match `find()` chooses: leftmost start, then the longest first name, then the longest last name |
| GedcomPatterns.ExtractSexSpec | src/main/java/de/jonasrotert/stammbaum/importer/service/GedComImporter.java:131-138 | `extractSex` finds nothing exactly when `1\sSEX\s` followed by a word character occurs nowhere; otherwise it returns that single character after the leftmost occurrence |
| GedcomPatterns.HasBirthTag | src/main/java/de/jonasrotert/stammbaum/importer/service/GedComImporter.java:74-78 | the birth test succeeds exactly when `1\sBIRT` occurs somewhere in the line |
| GedcomPatterns.DateGroupsGreedy | src/main/java/de/jonasrotert/stammbaum/importer/service/GedComImporter.java:53 | at a given start, the day and month runs of a date match are forced and the year run is the longest possible |
| GedcomPatterns.DateTokenSpec | src/main/java/de/jonasrotert/stammbaum/importer/service/GedComImporter.java:53-59 | `extractBirthday` finds no token exactly when the date pattern matches nowhere; otherwise the token is the `date` group of the leftmost match, with the longest year run |
| GedcomPatterns.ExtractPlaceSpec | src/main/java/de/jonasrotert/stammbaum/importer/service/GedComImporter.java:119-129 | `extractPlace` returns null exactly when no `2\sPLAC\s` is followed by a character other than a line terminator; otherwise it returns the untrimmed remainder after the leftmost such occurrence, up to a line terminator |
| Importer.DateHitSpec | src/main/java/de/jonasrotert/stammbaum/importer/service/GedComImporter.java:53-66 | `extractBirthday` stores no birthday when the date pattern matches nowhere in the line; otherwise it stores what the parser makes of the `date` group of the match `find()` chooses, which is nothing when the parser throws |
| Importer.ApplyName | src/main/java/de/jonasrotert/stammbaum/importer/service/GedComImporter.java:110-112 | first name is set after the call exactly when it was set before or the line matches; a newly set first name comes with a last name; no other field changes |
| Importer.ApplySex | src/main/java/de/jonasrotert/stammbaum/importer/service/GedComImporter.java:137-138 | sex is set after the call exactly when it was set before or the line matches; no other field changes |
| Importer.ApplyBirthday | src/main/java/de/jonasrotert/stammbaum/importer/service/GedComImporter.java:57-66 | a line without a parsable date leaves the Person unchanged; no field other than birthday ever changes |
| Importer.ApplyBirthplace | src/main/java/de/jonasrotert/stammbaum/importer/service/GedComImporter.java:92-102 | birthplace is set after the call exactly when it was set before or the line has a place; no other field changes |
| Importer.BirthLoop | src/main/java/de/jonasrotert/stammbaum/importer/service/GedComImporter.java:81-85 | the birth loop changes only birthday and birthplace |
| Importer.ExtractBirthInformation | src/main/java/de/jonasrotert/stammbaum/importer/service/GedComImporter.java:72-90 | the call throws exactly when the line contains `1\sBIRT` and is the last line, and then with index = size; a line without `1\sBIRT` leaves the Person unchanged |
| Importer.RecordLoop | src/main/java/de/jonasrotert/stammbaum/importer/service/GedComImporter.java:39-45 | the only exception the record loop throws is index = size, and it never changes the identifier |
| Importer.ScanRecord | src/main/java/de/jonasrotert/stammbaum/importer/service/GedComImporter.java:35-45 | a header on the last line throws for index = size; any failure is that exception; a read record keeps its identifier |
| Importer.AnalyzeFrom | src/main/java/de/jonasrotert/stammbaum/importer/service/GedComImporter.java:30-48 | the only exception is index = size; there are no more Persons than lines scanned, and every Person has an identifier |
| ImporterSpec.LookaheadEnd | src/main/java/de/jonasrotert/stammbaum/importer/service/GedComImporter.java:39-45 | a do-while from line k ends at the first line r >= k whose successor is missing or fails the continuation test; every line after k up to r passes it |
| ImporterSpec.HeaderIndices | src/main/java/de/jonasrotert/stammbaum/importer/service/GedComImporter.java:30-33 | the header lines in strictly increasing order, each matching the header pattern, and every matching line included |
| ImporterProofs.LastMatchIsLast | src/main/java/de/jonasrotert/stammbaum/importer/service/GedComImporter.java:42-44 | over a stretch of lines, the stored value is that of the last line on which the extractor succeeds, and is absent exactly when it succeeds on none |
| ImporterProofs.LastMatchConcat | src/main/java/de/jonasrotert/stammbaum/importer/service/GedComImporter.java:39-45 | reading two stretches in turn: the second stretch's match wins, and the first one's is kept when the second has none |
| ImporterProofs.RefineCompose | src/main/java/de/jonasrotert/stammbaum/importer/service/GedComImporter.java:39-45 | running the extractors over two stretches one after the other is the same as running them over the concatenation |
| ImporterProofs.BirthLoopRefines | src/main/java/de/jonasrotert/stammbaum/importer/service/GedComImporter.java:81-85 | the birth loop from line b runs the date and place extractors on exactly lines b through the end of the `2` run, and the last match wins |
| ImporterProofs.BirthInformationRefines | src/main/java/de/jonasrotert/stammbaum/importer/service/GedComImporter.java:72-90 | when it does not read past the end, `extractBirthInformation` reads exactly the birth sub-range of its line (none without `1\sBIRT`) |
| ImporterProofs.RecordLoopRefines | src/main/java/de/jonasrotert/stammbaum/importer/service/GedComImporter.java:39-45 | the record loop from line k fails exactly when its last line opens a birth sub-range past the end; otherwise it yields the Person refined over lines k through the first line before a `0` line, and over their birth sub-ranges |
| ImporterProofs.ScanRecordRefines | src/main/java/de/jonasrotert/stammbaum/importer/service/GedComImporter.java:35-45 | a record throws exactly when its lookahead overruns; otherwise it yields the reference Person of its header |
| ImporterProofs.AnalyzeFromRefines | src/main/java/de/jonasrotert/stammbaum/importer/service/GedComImporter.java:28-49 | the scan fails exactly when some header's record overruns; otherwise it yields one reference Person per header line, in line order |
| ImporterProofs.RefineProvenance | src/main/java/de/jonasrotert/stammbaum/importer/service/GedComImporter.java:42-44 | fields are never cleared: each field keeps its value when no line feeding it matches, and otherwise holds the value found on the last line that matches; both names come from one match; the identifier never changes |
| ImporterProofs.BirthTraceOrigin | src/main/java/de/jonasrotert/stammbaum/importer/service/GedComImporter.java:78-85 | every line the date and place extractors visit lies in the sub-range of a line containing `1\sBIRT` |
| ImporterProofs.RecordBirthsOrigin | src/main/java/de/jonasrotert/stammbaum/importer/service/GedComImporter.java:81-85 | birthday and birthplace are read only from lines that follow a `1\sBIRT` line of the record's own block: the line right after it, or a later line starting with `2` |
| ImporterProofs.RecordLinesWithin | src/main/java/de/jonasrotert/stammbaum/importer/service/GedComImporter.java:42 | every line index that feeds a record's Person is a valid index |
| GedcomImport.GedcomIdShape | src/main/java/de/jonasrotert/stammbaum/importer/service/GedComImporter.java:146-152 | an identifier is a non-empty run of word characters |
| GedcomImport.ExtractNameShape | src/main/java/de/jonasrotert/stammbaum/importer/service/GedComImporter.java:106-112 | both name groups are non-empty and free of line terminators |
| GedcomImport.ExtractSexShape | src/main/java/de/jonasrotert/stammbaum/importer/service/GedComImporter.java:133-138 | a stored sex is exactly one word character |
| GedcomImport.ExtractPlaceShape | src/main/java/de/jonasrotert/stammbaum/importer/service/GedComImporter.java:120-125 | a stored place is non-empty and free of line terminators |
| GedcomImport.RecordPersonWellFormed | src/main/java/de/jonasrotert/stammbaum/importer/service/GedComImporter.java:35-45 | a record's Person keeps its identifier; its first and last name are set together; every text field has the shape its pattern captures |
| GedcomImport.AnalyzeCharacterised | src/main/java/de/jonasrotert/stammbaum/importer/service/GedComImporter.java:28-49 | with the importer's patterns, `analyzeList` throws (index = size) exactly when some header's record reads past the last line; otherwise it yields one well-formed reference Person per header line, in line order |
| GedcomImport.NoHeaderNoPersons | src/main/java/de/jonasrotert/stammbaum/importer/service/GedComImporter.java:30-33 | input without a header line yields no Person and cannot throw |
| GedcomImport.RecordOverrunsExactly | src/main/java/de/jonasrotert/stammbaum/importer/service/GedComImporter.java:39-45 | a record reads past the end exactly when its header is the last line, or when no later line starts with `0` and the last line contains `1\sBIRT` |
| ImporterLoops.BirthInformation | src/main/java/de/jonasrotert/stammbaum/importer/service/GedComImporter.java:72-90 | the do-while version computes the functional model, and on a `1\sBIRT` line it yields the Person refined over that line's birth sub-range |
| ImporterLoops.Record | src/main/java/de/jonasrotert/stammbaum/importer/service/GedComImporter.java:35-45 | the do-while version fails exactly when the record overruns; otherwise it yields the header's reference Person |
| ImporterLoops.Scan | src/main/java/de/jonasrotert/stammbaum/importer/service/GedComImporter.java:30-48 | the `for` loop computes the functional scan |
| ImporterLoops.AnalyzeList | src/main/java/de/jonasrotert/stammbaum/importer/service/GedComImporter.java:28-49 | the loop version throws exactly when some record overruns, with index = size; otherwise it yields one reference Person per header line, in line order |
| Samples.HeaderId | src/main/java/de/jonasrotert/stammbaum/importer/service/GedComImporter.java:146-152 | `0 @I1@ INDI` gives the identifier `1`, without the `I` |
| Samples.SimpleName | src/main/java/de/jonasrotert/stammbaum/importer/service/GedComImporter.java:106-112 | `1 NAME John /Smith/` gives first name `John` and last name `Smith` |
| Samples.GreedyName | src/main/java/de/jonasrotert/stammbaum/importer/service/GedComImporter.java:106 | `1 NAME Anna /von/ /Berg/` gives first name `Anna /von/` and last name `Berg`, because the first-name group is greedy |
| Samples.SexFirstChar | src/main/java/de/jonasrotert/stammbaum/importer/service/GedComImporter.java:133-138 | `1 SEX Male` gives sex `M` |
| Samples.BirthdayToken | src/main/java/de/jonasrotert/stammbaum/importer/service/GedComImporter.java:53-59 | `2 DATE 1 JAN 1900` gives the date token `1 JAN 1900` |
| Samples.Birthplace | src/main/java/de/jonasrotert/stammbaum/importer/service/GedComImporter.java:120-125 | `2 PLAC Berlin, Germany` gives the place `Berlin, Germany` |
| Samples.HeaderOnLastLine | src/main/java/de/jonasrotert/stammbaum/importer/service/GedComImporter.java:39-42 | a header on the last line reads index 1 of a one-line list and throws |
| Samples.BirthOnLastLine | src/main/java/de/jonasrotert/stammbaum/importer/service/GedComImporter.java:81-83 | `1 BIRT` on the last line reads index 2 of a two-line list and throws |
| Samples.Sample | src/main/java/de/jonasrotert/stammbaum/importer/service/GedComImporter.java:28-49 | a complete record (header, name, sex, birth with date and place, trailer) yields one Person with every field set as its line says, given a parser that accepts `1 JAN 1900` |

## Left out

- `importFile` (file reading with `Files.lines`, the `IOException` handler) is not modelled. Its resulting list is discarded, so it has no behaviour to state. The model starts from the list of lines.
- Logging through `LOGGER` is not modelled. It has no effect on any Person.
- `SimpleDateFormat("d MMM yyyy", Locale.ENGLISH).parse` is the parameter `parse` (type `DateParser`). `None` stands for a `ParseException`. Its leniency, time zone and the `java.util.Date` representation are library behaviour outside this model.
- The Persons that `analyzeList` has already appended to the caller's list when it throws are not modelled. The model returns only the exception, and the one caller, `importFile`, does not catch it.
- The JPA entity classes `Person` and `Family` are not part of this model. Person is a datatype with the optional fields whose setters the importer calls.
- `FamilyRepository` (an empty Spring Data interface) and the Spring annotations carry no logic and are not modelled.
- A general regular-expression engine is not modelled. Each of the six fixed patterns has a hand-written matcher, and Java's `MULTILINE` flag is irrelevant because no pattern uses `^` or `$`.
- Importer.ApplyName: its contract says when the names are set and that nothing else changes, not which text they get. The text is stated by GedcomPatterns.ExtractNameSpec and, across a record, by ImporterProofs.RefineProvenance.
- Importer.ApplySex: likewise, the value is stated by GedcomPatterns.ExtractSexSpec and ImporterProofs.RefineProvenance.
- Importer.ApplyBirthday: likewise, the value is stated by Importer.DateHitSpec and ImporterProofs.RefineProvenance.
- Importer.ApplyBirthplace: likewise, the value is stated by GedcomPatterns.ExtractPlaceSpec and ImporterProofs.RefineProvenance.
- Importer.BirthLoop: its own contract states only which fields it may change. What it computes is stated by ImporterProofs.BirthLoopRefines.
- Importer.ExtractBirthInformation: its own contract states the failure and the case without `1\sBIRT`. What it computes on a `1\sBIRT` line is stated by ImporterProofs.BirthInformationRefines.
- Importer.RecordLoop: its own contract states the failure and the kept identifier. What it computes is stated by ImporterProofs.RecordLoopRefines.
- Importer.ScanRecord: its own contract states the failure and the kept identifier. What it computes is stated by ImporterProofs.ScanRecordRefines.
- Importer.AnalyzeFrom: its own contract states bounds only. What it computes is stated by ImporterProofs.AnalyzeFromRefines.
- ImporterLoops.Scan: its contract equates the loop with Importer.AnalyzeFrom. The meaning is stated by ImporterLoops.AnalyzeList.

## Behaviour worth knowing

- The identifier of `0 @I1@ INDI` is `1`: the capturing group starts after the `I` (line 146).
- A header on the last line makes `analyzeList` throw, because the do-while reads the line after it (lines 39-42, `Samples.HeaderOnLastLine`). A `1 BIRT` on the last line throws the same way (lines 81-83, `Samples.BirthOnLastLine`).
- Every line is matched against the header pattern, including lines inside a record block, because the outer index advances by one (line 30). A header line inside a block ends the block only if it starts with `0`.
- The patterns are unanchored: `find()` matches anywhere in a line, so no pattern checks the level at the start of the line. Only the block boundaries use `startsWith` (lines 45 and 85).
- A birth sub-range is bounded only by the `2` test (line 85), not by the record's block. Its first line is read unconditionally, so a `1 BIRT` on the last line of a block feeds the next line, which starts with `0`, to the date and place extractors.
- The Person is appended at line 38 before its fields are set. It is not touched after its block ends, so the model appends the finished value.
