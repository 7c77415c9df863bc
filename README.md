# journal-cli check-ins, modelled in Dafny

journal-cli is a command-line journal. Each journal in the configuration has a
title and a list of sections, and each section has a list of questions. A
check-in (`Journal::Checkin`) does three things:

- It asks every question of every section. The answers are read from `gum`
  prompts and stored under the question's key. A dotted key such as
  `"mood.score"` stores its answer in a nested map.
- It derives the entry title. A `%M` in the title becomes AM or PM.
- `go` does the saving:
  1. It copies the sections into the check-in's data.
  2. It appends a record to the journal's JSON history. The records are kept
     sorted by date.
  3. It saves the Markdown rendering as the journal's `markdown` setting says:
     appended to a single file, written to one file per day, or written to a
     new file per entry.

The model covers the check-in and the pieces it relies on.

Data and helpers:
- The insertion-ordered Ruby `Hash` (`OrderedHash`).
- The answer values and the nested answer maps (`Answers`).
- The questions and their `gum` readers (`Questions`). The responses are a
  finite sequence of lines. Running out of them is `InputExhausted`.
- `Section` and `Sections` (classes; asking happens in their constructors).
  `Data` is also a class.
- The weather snapshot and its renderings (`JournalWeather`).
- `String#parse_condition` (`StringCondition`).
- `Array#shortest` and `Array#longest` (`ArrayHelpers`).

The check-in itself:
- The `Checkin` class, with its `@output` buffer and `@data`.
- The Markdown it renders (`CheckinMarkdown`).
- The history record it saves (`JournalRecord`).
- The file store, which is a map from path to contents.

Ruby exceptions become `Err` values of `Wrappers.Error`. Some library calls
are passed in as function-valued fields of `Foreign.Env`: `strftime`,
`File.expand_path`, `to_s`, `YAML.dump`, `Time.parse`, `JSON.parse` and
`JSON.pretty_generate`. So is Chronic (a parameter returning a minute of the
day).

Regular expressions are modelled with Ruby's meanings for them:
- `^` and `$` are line anchors. For example, `"x\ndaily"` selects the daily
  mode (`JournalCheckin.ModeLaterLine`).
- `sub` and `String#[]=` act on the first occurrence.

The model keeps these behaviours of the code as written:
- A question whose type starts with `weather` or `forecast` raises.
  `question.rb` calls `Weather.new` with two arguments, but the constructor
  takes three (`Questions.AskWeather`).
- `/^multi/` has no `/i`. A type `Multi` is therefore asked nothing and
  answered nil (`Questions.KindMulti`).
- `ask` has no branch for `date`. `print_answer` still formats a `Time`
  stored by other means under a `date` type. `weather_to_yaml` copies a
  `Time` unchanged: its class name does not match `/Date/`.
- `Weather#to_data` and the weather record differ. `to_data` records the
  current condition under `condition`. The record `save_data` builds for a
  non-current, non-moon key records the daily condition.
- `print_answer` chooses the weather rendering by the question's type suffix.
  `weather_to_yaml` and `save_data` choose it by the answer's key suffix.
- A blank response is tested differently by the two text readers:
  - `read_line` tests `/^ *$/`, so a tab is not blank;
  - `read_lines` tests `strip.empty?`, so a tab is blank.

  (`Questions.BlankTests`.)

## Model

| member | source | states |
|---|---|---|
| Strings.StripLeftSpec | lib/journal-cli/question.rb:53 | `lstrip` removes exactly the leading whitespace: the result is a suffix, starts with a non-space, and everything cut was whitespace |
| Strings.StripRightSpec | lib/journal-cli/question.rb:53 | `rstrip` removes exactly the trailing whitespace: the result is a prefix ending in a non-space, and everything cut was whitespace |
| Strings.StripSpec | lib/journal-cli/question.rb:53-54 | `strip` returns the middle slice with no whitespace at either end; all that was cut on both sides was whitespace |
| Strings.StripEmptyIff | lib/journal-cli/question.rb:54 | `strip.empty?` holds exactly when every character is whitespace |
| Strings.StripIdempotent | lib/journal-cli/question.rb:80 | stripping a stripped string changes nothing |
| Strings.PrefixExact | lib/journal-cli/checkin.rb:81 | without `/i` a pattern matches at a position exactly when that slice equals it |
| Strings.StartsLineSingle | lib/journal-cli/question.rb:31-37 | on a string with no newline, `/^w/` means "begins with w" |
| Strings.StartsLineAtZero | lib/journal-cli/question.rb:31-37 | a string beginning with `w` (after case folding under `/i`) matches `/^w/` |
| Strings.StartsLineHeadDiffers | lib/journal-cli/question.rb:31-37 | a one-line string whose first character differs from the pattern's does not match `/^w/` |
| Strings.Lower | lib/journal-cli/question.rb:31-35 | the string with each ASCII capital replaced by its small letter, same length |
| Strings.StartsLineLower | lib/journal-cli/question.rb:31-35 | for a pattern in small letters, `/^w/i` matches exactly when `/^w/` matches the lowered string |
| Strings.SpacesOnlySingleLine | lib/journal-cli/question.rb:76 | on one line, `/^ *$/` holds exactly when every character is a space |
| Strings.JoinWith | lib/journal-cli/checkin.rb:296 | `join` of no pieces is empty and of one piece is that piece |
| Strings.Repeat | lib/journal-cli/weather.rb:156 | `"-" * n` has length n |
| Strings.RepeatChars | lib/journal-cli/weather.rb:156 | every character of `"-" * n` is the repeated one |
| Strings.PadLeft | lib/journal-cli/weather.rb:147 | `format("%ws")` has length max(len, w) |
| Strings.PadLeftShape | lib/journal-cli/weather.rb:147 | `format("%ws")` is spaces followed by the whole argument, never cut |
| Strings.Puts | lib/journal-cli/checkin.rb:143-146 | `puts` writes its argument and ends with exactly one newline added only when missing |
| Strings.TrimTrailingSlash | lib/journal-cli/checkin.rb:141 | the trailing slashes of a directory, as `File.join` drops them: a prefix not ending in a slash, followed only by slashes |
| Strings.FileJoin | lib/journal-cli/checkin.rb:141 | `File.join(a, b)` ends with the whole of `b`; before it stands `a` without its trailing slashes when `b` begins with a slash, otherwise `a` followed by a slash unless `a` already ends with one |
| Strings.FindFrom | lib/journal-cli/section.rb:37 | the first occurrence of a word at or after a position: found there, absent before, or absent everywhere |
| Strings.SplitRaw | lib/journal-cli/section.rb:32 | the fields of a split on "." hold no dot and there is at least one |
| Strings.SplitRawJoin | lib/journal-cli/section.rb:32 | joining the raw fields with "." gives back the key |
| Strings.SplitDots | lib/journal-cli/section.rb:32 | `split(".")`: dot-free fields with the trailing empty fields dropped |
| Strings.SplitDotsPair | lib/journal-cli/section.rb:32 | `"a.b".split(".") == ["a", "b"]` for dot-free, non-empty `b` |
| Strings.NatToString | lib/journal-cli/checkin.rb:211 | the decimal rendering of a natural is non-empty and all digits |
| Strings.ParseNatToString | lib/journal-cli/question.rb:18-19 | reading back the digits of a rendered natural gives the natural |
| Strings.ToIIntToString | lib/journal-cli/question.rb:18-19 | `to_i` of a rendered integer (sign included) gives the integer |
| Clock.Hour | lib/journal-cli/checkin.rb:23 | `Time#hour` is in 0..23 and is the hour the instant falls in |
| OrderedHash.Keys | lib/journal-cli/sections.rb:8 | a hash's keys, in iteration order, one per pair |
| OrderedHash.Get | lib/journal-cli/section.rb:36 | a hash read finds a value exactly when the key is present |
| OrderedHash.Put | lib/journal-cli/sections.rb:8 | after `h[k] = v`, k reads v and every other key reads as before |
| OrderedHash.PutKeys | lib/journal-cli/sections.rb:8 | assignment keeps a present key's position and appends a new key at the end |
| OrderedHash.AppendNew | lib/journal-cli/data.rb:20-22 | the keys in order of first occurrence are distinct and are exactly the old and the new keys |
| OrderedHash.LastValue | lib/journal-cli/sections.rb:6-9 | the last value given to a key exists exactly when the key occurs |
| OrderedHash.PutAllSpec | lib/journal-cli/checkin.rb:73 | assigning pairs in order: keys are the old ones then the new ones by first assignment, each assigned key holds its last value, others are unchanged |
| OrderedHash.PutAllSnoc | lib/journal-cli/checkin.rb:73 | assigning one more pair is one more `Put` |
| OrderedHash.PutElements | lib/journal-cli/sections.rb:8 | every pair after an assignment is an old pair or the assigned one |
| OrderedHash.PutNew | lib/journal-cli/section.rb:42 | assigning an absent key appends the pair |
| OrderedHash.PutPut | lib/journal-cli/section.rb:42 | a second assignment to the same key overrides the first in place |
| OrderedHash.PutSame | lib/journal-cli/checkin.rb:73 | assigning a key the value it holds changes nothing |
| OrderedHash.PutAllFresh | lib/journal-cli/checkin.rb:73 | assigning pairs with distinct new keys appends them |
| OrderedHash.PutAllHeld | lib/journal-cli/checkin.rb:73 | assigning pairs that the hash already holds changes nothing |
| OrderedHash.GetDistinct | lib/journal-cli/checkin.rb:73 | with distinct keys, each pair is what its key reads |
| Answers.SetPathOpen | lib/journal-cli/section.rb:33-40 | walking a dotted key through maps (creating missing ones) succeeds, the full path reads the answer, and each prefix reads a map |
| Answers.SetPathOthers | lib/journal-cli/section.rb:33-40 | storing under a path leaves every unrelated path reading as before |
| Answers.SetPathKeys | lib/journal-cli/section.rb:36 | the top-level keys gain the first field only when it was absent, at the end |
| Answers.SetPathBlocked | lib/journal-cli/section.rb:36 | walking into a value that is not a map and not the last step raises NoMethodError for `key?` |
| Answers.SetPathIntoString | lib/journal-cli/section.rb:40 | storing into a String succeeds exactly when the answer is a String and the last field occurs in it, replacing the first occurrence |
| Questions.NewQuestionBounds | lib/journal-cli/question.rb:18-19 | min defaults to 1 and max to 5; given bounds are read with `to_i` |
| Questions.KindNumber | lib/journal-cli/question.rb:31-32 | for every type, the number reader is chosen exactly when the lowered type has a line starting with `int` or `num` |
| Questions.KindLine | lib/journal-cli/question.rb:33-34 | for every type, the line reader is chosen exactly when the number patterns fail and the lowered type has a line starting with `text`, `string` or `line` |
| Questions.KindWeather | lib/journal-cli/question.rb:35 | for every type, the weather branch is taken exactly when the earlier patterns fail and the lowered type has a line starting with `weather` or `forecast` |
| Questions.AskWeather | lib/journal-cli/question.rb:35-36 | asking raises ArgumentError exactly when the type takes the weather branch, because `Weather.new` gets two of its three arguments |
| Questions.KindMulti | lib/journal-cli/question.rb:37-38 | for every type, the multi-line reader is chosen exactly when the folded patterns fail and the type as written has a line starting with `multi`; so "multiline" selects it and "Multi" matches no branch |
| Questions.KindOther | lib/journal-cli/question.rb:39-40 | no branch is taken exactly when the type is missing or matches none of the five patterns; then the answer is nil and no response is read |
| Questions.Ask | lib/journal-cli/question.rb:29-42 | asking consumes responses from the front: what is left is a suffix of the input |
| Questions.ReadNumber | lib/journal-cli/question.rb:51-60 | the number answer is nil or lies within min..max, and at least one response is consumed |
| Questions.FirstAccepted | lib/journal-cli/question.rb:54-58 | finds the first response that is blank or in range; none before it is |
| Questions.ReadNumberFirst | lib/journal-cli/question.rb:51-60 | `read_number` re-asks until the first accepted response, answers its value and leaves what follows it; with none it runs out of input |
| Questions.ReadText | lib/journal-cli/question.rb:71-101 | a text answer is stripped and at least one response is consumed |
| Questions.FirstBlank | lib/journal-cli/question.rb:71-101 | finds the first blank response; none before it is |
| Questions.ReadTextOnce | lib/journal-cli/question.rb:71-81 | without a secondary prompt one response is read: blank gives "", otherwise its stripped text |
| Questions.ReadTextRepeats | lib/journal-cli/question.rb:78-80 | with a secondary prompt responses are read up to the first blank one and the answer is those lines joined by newlines and stripped; with none blank it runs out of input |
| Questions.BlankTests | lib/journal-cli/question.rb:71-101 | a tab is blank for `read_lines` but not for `read_line`, with the answers that follow from it |
| JournalSection.NewQuestions | lib/journal-cli/section.rb:18 | one question per configured question, in order |
| JournalSection.WalkableSetPath | lib/journal-cli/section.rb:33-38 | storing under a dotted key raises NoMethodError exactly when the walk meets a non-map before the last step |
| JournalSection.WalkableFresh | lib/journal-cli/section.rb:33-38 | every path can be walked in an empty answer map |
| JournalSection.Section.constructor | lib/journal-cli/section.rb:15-21 | a new section keeps its key and title, builds its questions in order and starts with no answers |
| JournalSection.Section.AskQuestions | lib/journal-cli/section.rb:28-45 | asks every question in order and stores each answer, succeeding or raising as the specification function does; key, title and questions are unchanged |
| JournalSection.Build | lib/journal-cli/section.rb:15-21 | `Section.new` gives a fresh section whose value is the one the specification function builds, or the error it raises |
| JournalSection.StoreTopLevel | lib/journal-cli/section.rb:42 | a dot-free key is stored at the top level and nothing else changes |
| JournalSection.StoreNested | lib/journal-cli/section.rb:30-40 | a key "a.b" stores its answer under `answers["a"]["b"]`, keeping the other entries of `answers["a"]` and every other top-level key |
| JournalSection.AskSeq | lib/journal-cli/section.rb:29 | asking the questions in turn gives one answer per question |
| JournalSection.AskAllInOrder | lib/journal-cli/section.rb:29-44 | asking all questions and then storing the answers in order gives the same map and leftover input as asking and storing one by one |
| JournalSections.ValuesOf | lib/journal-cli/sections.rb:6-9 | the value of the sections hash: same keys, each section by its value |
| JournalSections.ValuesOfPut | lib/journal-cli/sections.rb:8 | assigning a section then taking values is assigning its value |
| JournalSections.Sections.constructor | lib/journal-cli/sections.rb:10 | `super(sections)` starts empty and keeps the configuration list as the hash's default |
| JournalSections.Sections.At | lib/journal-cli/sections.rb:10 | a read finds a stored section, or returns the default (the configuration list) for a missing key |
| JournalSections.Sections.Assign | lib/journal-cli/sections.rb:8 | `self[key] = section` updates the contents as an ordered-hash assignment |
| JournalSections.NewSections | lib/journal-cli/sections.rb:5-11 | builds every section in order, each asking its questions on the responses the previous ones left, and holds them by key; an error in any section is raised |
| JournalSections.ConfigPairs | lib/journal-cli/sections.rb:6-9 | one (key, configuration) pair per configured section |
| JournalSections.BuildAllShape | lib/journal-cli/sections.rb:6-9 | the built sections come in configuration order, each with its configuration's key, title and questions |
| JournalSections.LastValueBuilt | lib/journal-cli/sections.rb:8 | under a repeated key the section kept is the one built from the last configuration with that key |
| JournalSections.SectionsShape | lib/journal-cli/sections.rb:6-9 | the sections hash has each configured key once, in order of first occurrence, holding the last section built for it |
| JournalRecord.ReducedPairs | lib/journal-cli/checkin.rb:322-345 | reshaping a nested map reduces each value by its own key |
| JournalRecord.BuildRecord | lib/journal-cli/checkin.rb:316-359 | the record loop builds what the record specification function gives |
| JournalRecord.NestedInto | lib/journal-cli/checkin.rb:349-350 | a nested map under a foreign key goes to `output[jk][k]`, merged into what is there |
| JournalRecord.NestedStepFresh | lib/journal-cli/checkin.rb:349-350 | the first pair nested under a new foreign key creates `output[jk][k]` holding that pair, reduced |
| JournalRecord.NestedFresh | lib/journal-cli/checkin.rb:349-350 | a nested map under a new foreign key is appended as its own reduced map |
| JournalRecord.Reshaped | lib/journal-cli/checkin.rb:320-357 | the reshaped entry's keys are all answer keys |
| JournalRecord.AnswerStepShaped | lib/journal-cli/checkin.rb:320-357 | one answer adds its reshaped pairs at the end of the entry |
| JournalRecord.RecordShape | lib/journal-cli/checkin.rb:318-359 | when no answer's key equals the section key, the entry is the answers reshaped pair by pair |
| JournalRecord.NestedOwn | lib/journal-cli/checkin.rb:346-347 | a nested map under the section's own key is merged into the entry itself |
| JournalRecord.SectionRecordSnoc | lib/journal-cli/checkin.rb:320 | the entry for one more answer is one more step of the loop |
| JournalRecord.OwnKey | lib/journal-cli/checkin.rb:353-354 | a plain answer under the section's own key replaces the whole entry with that answer |
| JournalRecord.NormalisedAll | lib/journal-cli/checkin.rb:361-366 | `map!` normalises every record, in place and in order |
| JournalRecord.Insert | lib/journal-cli/checkin.rb:368 | inserting a record adds exactly that record |
| JournalRecord.InsertSorted | lib/journal-cli/checkin.rb:368 | inserting into date-sorted records keeps them sorted |
| JournalRecord.SortByDate | lib/journal-cli/checkin.rb:368 | sorting by date is a permutation |
| JournalRecord.SortByDateSorted | lib/journal-cli/checkin.rb:368 | sorting by date yields records ordered by date |
| JournalRecord.AppendRecord | lib/journal-cli/checkin.rb:360-368 | the history gains exactly one record; all dates are normalised; the result is sorted by date and is a permutation of the old records plus the new one |
| CheckinMarkdown.PrintAnswerSpec | lib/journal-cli/checkin.rb:196-221 | nothing is printed exactly when the map, the key or the answer is missing; a weather type prints the header, then the current conditions, "Moon phase: …" or the table as the TYPE ends in `current`, `moon` or neither, and raises for a non-weather value; a number prints "prompt: value  "; a date type prints "prompt: " and the `%Y-%m-%d %H:%M` time, raising for a non-time; text prints a header and the text only when not blank, always followed by a rule, and raises for a non-string |
| CheckinMarkdown.NumberAnswerText | lib/journal-cli/checkin.rb:210-211 | an integer answer prints as "prompt: digits  " |
| CheckinMarkdown.QuestionsAcc | lib/journal-cli/checkin.rb:280-293 | the pieces of a section's questions are appended to what the buffer held before |
| CheckinMarkdown.BodyAcc | lib/journal-cli/checkin.rb:277-294 | the pieces of the sections are appended to what the buffer held before |
| CheckinMarkdown.BodyAppend | lib/journal-cli/checkin.rb:277 | rendering sections s1 then s2 renders s1 and continues with s2 |
| CheckinMarkdown.BodySplit | lib/journal-cli/checkin.rb:277 | the body of s1 + s2 is the body of s1 followed by the body of s2 |
| CheckinMarkdown.SectionOrder | lib/journal-cli/checkin.rb:278-280 | a section prints its title first, then its questions in order |
| CheckinMarkdown.QuestionsSnoc | lib/journal-cli/checkin.rb:280 | one more question appends its own pieces |
| CheckinMarkdown.DottedLookup | lib/journal-cli/checkin.rb:281-289 | a question "a.b" prints `answers["a"]` under key "b", and nothing when "a" is absent |
| CheckinMarkdown.StoredIsPrinted | lib/journal-cli/checkin.rb:281-289 | what asking stores under "a.b" is what rendering prints for it |
| CheckinMarkdown.YamlFromOther | lib/journal-cli/checkin.rb:225-248 | `weather_to_yaml` writes only the keys of the map it walks |
| CheckinMarkdown.YamlFromSpec | lib/journal-cli/checkin.rb:225-248 | each key of the walked map reads the YAML value of its last entry: strings skipped, maps converted, weather by key suffix, everything else (times included) copied |
| CheckinMarkdown.YamlFromNone | lib/journal-cli/checkin.rb:225-248 | a key not in the walked map is absent from the YAML map |
| CheckinMarkdown.YamlShape | lib/journal-cli/checkin.rb:223-250 | the YAML map of an answer map has the YAML value of each answer key and nothing else |
| CheckinMarkdown.MarkdownLayout | lib/journal-cli/checkin.rb:252-297 | the rendering succeeds exactly when the body does, and is the front matter and title followed by the body; YAML front matter ends with "---" |
| JournalCheckin.MeridiemHours | lib/journal-cli/checkin.rb:23 | AM exactly before 13:00 (so 12:59:59 is AM, 13:00 is PM) |
| JournalCheckin.TitleMeridiem | lib/journal-cli/checkin.rb:24 | `sub(/%M/, …)` replaces the first "%M" of the title with AM or PM |
| JournalCheckin.TitleNoMarker | lib/journal-cli/checkin.rb:24 | a title with no "%M" is kept |
| JournalCheckin.OpenedOrder | lib/journal-cli/checkin.rb:11-25 | an unknown journal key raises before any question is asked; a failing section is raised; otherwise the sections hold each configured key and the title is the substituted one |
| JournalCheckin.HistorySpec | lib/journal-cli/checkin.rb:299-372 | `save_data` succeeds exactly when the record can be built; it then writes a history with one more record, sorted by date, a permutation of the old records plus the new one, and touches no other file |
| JournalCheckin.SingleFrames | lib/journal-cli/checkin.rb:129-149 | the single-file save only appends to its target and touches no other file |
| JournalCheckin.DailyFrames | lib/journal-cli/checkin.rb:154-173 | the daily save touches no file but its target, and appends when the target exists |
| JournalCheckin.DailyFresh | lib/journal-cli/checkin.rb:169-171 | a new daily file is written with YAML front matter and the rendering |
| JournalCheckin.IndividualFrames | lib/journal-cli/checkin.rb:178-194 | the individual save writes only its target, with YAML front matter and the rendering |
| JournalCheckin.MarkdownIsNotHistory | lib/journal-cli/checkin.rb:139-141 | the single and daily Markdown targets are never the JSON history |
| JournalCheckin.ModeNamedDaily | lib/journal-cli/checkin.rb:81-82 | `markdown: daily` and `markdown: day` select the daily save |
| JournalCheckin.ModeNamedIndividual | lib/journal-cli/checkin.rb:83-84 | `individual` and `separate` select the individual save |
| JournalCheckin.ModeOther | lib/journal-cli/checkin.rb:85-86 | any other setting, such as "dairy", selects the single-file save |
| JournalCheckin.ModeLaterLine | lib/journal-cli/checkin.rb:81 | `^` is a line anchor: a later line beginning "daily" selects the daily save |
| JournalCheckin.GoKeepsHistory | lib/journal-cli/checkin.rb:72-88 | after `go` (single or daily mode) the history file still holds what `save_data` wrote |
| JournalCheckin.GoDataStable | lib/journal-cli/checkin.rb:73 | copying the sections into empty data gives the sections, and copying again changes nothing |
| JournalCheckin.Checkin.constructor | lib/journal-cli/checkin.rb:11-25 | a new check-in has its key, date, journal, sections and title, and empty data and output |
| JournalCheckin.Checkin.AddTitle | lib/journal-cli/checkin.rb:32-34 | appends the title piece unless the title is nil |
| JournalCheckin.Checkin.Header | lib/journal-cli/checkin.rb:41-43 | appends the header piece unless the header is nil |
| JournalCheckin.Checkin.SectionHeader | lib/journal-cli/checkin.rb:50-52 | appends the section piece unless the title is nil |
| JournalCheckin.Checkin.Newline | lib/journal-cli/checkin.rb:57-59 | appends a newline piece |
| JournalCheckin.Checkin.Hr | lib/journal-cli/checkin.rb:64-66 | appends the rule piece |
| JournalCheckin.Checkin.PrintAnswer | lib/journal-cli/checkin.rb:196-221 | appends the pieces of `print_answer` or reports its error |
| JournalCheckin.Checkin.WeatherToYaml | lib/journal-cli/checkin.rb:223-250 | the loop builds the YAML map of the specification function |
| JournalCheckin.Checkin.YamlData | lib/journal-cli/checkin.rb:256-260 | title and date merged with the YAML map of every section's answers |
| JournalCheckin.Checkin.Head | lib/journal-cli/checkin.rb:255-275 | appends the front matter and title pieces chosen by the flags |
| JournalCheckin.Checkin.PrintQuestion | lib/journal-cli/checkin.rb:281-292 | appends the pieces of one question, looked up through its dotted key |
| JournalCheckin.Checkin.Body | lib/journal-cli/checkin.rb:278-293 | appends a section's title and the pieces of its questions in order, or stops at the first error |
| JournalCheckin.Checkin.RenderSections | lib/journal-cli/checkin.rb:277-294 | every section in order appends its title and its questions' pieces, stopping at the first error, as the rendering function says |
| JournalCheckin.Checkin.ToMarkdown | lib/journal-cli/checkin.rb:252-297 | resets the buffer, renders everything and returns the pieces joined by newlines |
| JournalCheckin.Checkin.SaveData | lib/journal-cli/checkin.rb:299-372 | writes the history as `HistorySpec` describes |
| JournalCheckin.Checkin.SaveSingle | lib/journal-cli/checkin.rb:129-149 | appends the dated heading and the rendering to the single file |
| JournalCheckin.Checkin.SaveDaily | lib/journal-cli/checkin.rb:154-173 | appends to the day's file or creates it with front matter |
| JournalCheckin.Checkin.SaveIndividual | lib/journal-cli/checkin.rb:178-194 | writes a new file named after the date and time |
| JournalCheckin.Checkin.StoreSections | lib/journal-cli/checkin.rb:73 | the data becomes the old data with every section assigned in order; the output is unchanged |
| JournalCheckin.Checkin.Go | lib/journal-cli/checkin.rb:72-88 | stores the sections, saves the history, then saves the Markdown by mode |
| JournalCheckin.Checkin.SaveMarkdown | lib/journal-cli/checkin.rb:78-87 | picks the save by the `markdown` setting, and saves nothing when it is absent |
| JournalCheckin.Open | lib/journal-cli/checkin.rb:11-25 | `Checkin.new` succeeds or raises as the specification function does and gives a fresh, valid check-in |
| StringCondition.SpacesEnd | lib/journal-cli/string.rb:13 | ` +` and ` *` consume the longest run of spaces |
| StringCondition.DigitsEnd | lib/journal-cli/string.rb:13 | `[0-9]+` consumes the longest run of digits |
| StringCondition.CompEnd | lib/journal-cli/string.rb:13 | the comparator scan ends after a word the `comp` group accepts |
| StringCondition.TimeEnd | lib/journal-cli/string.rb:13 | the time scan ends after a word the time alternative accepts |
| StringCondition.MatchEnds | lib/journal-cli/string.rb:13 | the scanner only reports positions where the pattern matches |
| StringCondition.MatchEndsComplete | lib/journal-cli/string.rb:13 | wherever the pattern matches, the scanner finds that match |
| StringCondition.NoMatchAt | lib/journal-cli/string.rb:13 | where the scanner fails, the pattern matches at no split of the text |
| StringCondition.FindMatchAt | lib/journal-cli/string.rb:17 | with the leftmost match at p, the search returns its comp and time captures |
| StringCondition.FindMatchNone | lib/journal-cli/string.rb:14 | with no match anywhere, the search finds none |
| StringCondition.FindMatchSound | lib/journal-cli/string.rb:13-17 | a found match is a real match and no match starts earlier |
| StringCondition.DecideSpec | lib/journal-cli/string.rb:24-33 | "<=" and ">=" are the non-strict tests; other "<" words and "before" are "earlier"; other ">" words and "after" are "later"; "=" words match no branch |
| StringCondition.NoMatchIsTrue | lib/journal-cli/string.rb:14 | a condition the pattern does not match is true |
| StringCondition.MatchDecides | lib/journal-cli/string.rb:16-33 | the leftmost match compares now with the Chronic time on today's date; an unreadable time raises NoMethodError |
| StringCondition.AfterThreeExample | lib/journal-cli/string.rb:11-35 | "after 3pm" is false at 14:00 and true at 15:30 |
| StringCondition.NoSpaceExample | lib/journal-cli/string.rb:13-14 | "after3pm" does not match the pattern, so it is true |
| JournalData.EntryOf | lib/journal-cli/data.rb:21 | `self[key]` is the stored value or the default |
| JournalData.QuestionKeys | lib/journal-cli/data.rb:20 | one key per question, in order |
| JournalData.Projection | lib/journal-cli/data.rb:20-22 | one (key, entry) pair per question, in order |
| JournalData.ProjectionLast | lib/journal-cli/data.rb:20-22 | the pairs have the question keys, and each key's last pair holds its entry |
| JournalData.Data.constructor | lib/journal-cli/data.rb:8-11 | keeps the questions and starts empty |
| JournalData.Data.At | lib/journal-cli/data.rb:21 | a read falls back to the default (the questions) exactly when the key is absent |
| JournalData.Data.Assign | lib/journal-cli/data.rb:8-11 | assignment stores the value at that key and leaves every other read unchanged |
| JournalData.Data.ToData | lib/journal-cli/data.rb:18-24 | `to_data` holds each question key once, in order of first occurrence, reading `self[key]`, and no other key |
| ArrayHelpers.Inject | lib/journal-cli/array.rb:13 | `inject` without a seed is nil exactly on an empty array |
| ArrayHelpers.Shortest | lib/journal-cli/array.rb:12-14 | nil exactly on an empty array |
| ArrayHelpers.Longest | lib/journal-cli/array.rb:21-23 | nil exactly on an empty array |
| ArrayHelpers.FoldAtIndex | lib/journal-cli/array.rb:12-23 | the fold's kept word is an element of the array, and the winner so far stays the winner |
| ArrayHelpers.InjectSpec | lib/journal-cli/array.rb:12-23 | a non-empty array's result is one of its elements, and it is the winner |
| ArrayHelpers.ShortestSpec | lib/journal-cli/array.rb:12-14 | the shortest element has minimal length and is the LAST of minimal length (ties go to the later word) |
| ArrayHelpers.LongestSpec | lib/journal-cli/array.rb:21-23 | the longest element has maximal length and is the LAST of maximal length |
| JournalWeather.ToDataSpec | lib/journal-cli/weather.rb:79-86 | `to_data` has exactly the keys high, low, condition and moon_phase, and its condition is the current one |
| JournalWeather.CellShape | lib/journal-cli/weather.rb:144-176 | each table cell is its content right-aligned in the column (never cut) and " |"; the separator is width + 1 dashes and "|"; a condition cell is " condition |" |
| JournalWeather.BuildRow | lib/journal-cli/weather.rb:144-150 | the loop builds "|" followed by one cell per hourly sample |
| JournalWeather.ToMarkdown | lib/journal-cli/weather.rb:134-179 | the rendering is the specification function's text |
| JournalWeather.MarkdownHead | lib/journal-cli/weather.rb:137-140 | the rendering starts with the forecast, current and moon lines, then a blank line, then the four rows |
| JournalWeather.CellLength | lib/journal-cli/weather.rb:144-176 | a cell with content no wider than its column is width + 2 long |
| JournalWeather.RowLength | lib/journal-cli/weather.rb:144-176 | a row of such cells is 1 + the total of the column widths + 2 each |
| JournalWeather.RowsAligned | lib/journal-cli/weather.rb:144-176 | when every label and temperature fits its column, all four rows have the same length: the table's columns line up |

## Left out

- Day One: `launch_day_one` and `save_day_one_entry` (`checkin.rb:93-124`) run external programs and are not modelled. Neither is the `dayone` branch of `go`.
- Directory creation (`FileUtils.mkdir_p`) and messages (`Journal.notify`, `puts`) are left out: the file store has no directories and the model has no terminal.
- `Weather#initialize` (`weather.rb:14-72`) is left out. It fetches JSON with `curl` and picks fields out of it, including a last hourly sample that takes its temperature from hour 19 and its condition from hour 20. The model starts from the snapshot `@data` instead. The snapshot's temperatures are kept as the strings Ruby's interpolation would produce.
- `Weather#to_s` (`weather.rb:123-125`) rounds floats, so it is taken from `Foreign.Env` instead of modelled.
- `JournalWeather.ToMarkdown` takes the hour labels as a parameter, so the seven labels of `hours_text` are not tied to it. A column past the seventh reads nil, which is modelled as an empty label. The rows are built by string concatenation, not by joining an array of cells.
- Time zones, `localtime`/`utc` and sub-second precision are left out. An instant is a day number and a second of the day.
- `strftime`, `File.expand_path`, `YAML.dump`, `Time.parse`, `JSON.parse`, `JSON.pretty_generate` and `to_s` of values the model does not render are fields of `Foreign.Env`, so their output is not modelled.
- Chronic is a parameter returning a minute of the day. An unparseable time string (nil) is modelled; Chronic's grammar is not.
- Malformed configuration beyond a missing journal, a missing `sections` or a missing `title` is not modelled. Examples are a `questions` that is not a list and history JSON that does not parse.
- `Journal.date` and `Journal.config` are parameters.
- A question key made only of dots splits into no fields. Ruby then stores the answer under the key nil. Keys are strings here, so the model raises `NilKey` instead.
- In `weather_to_yaml` each value is dispatched on `v.class.to_s`. The model's time value (`Answers.Value.Time`) stands for a Ruby `Time`, which no branch but the last matches, so it is copied. A Ruby `Date` or `DateTime` answer is not a value of the model: its class name matches `/Date/`, and `v.localtime` then raises NoMethodError (`checkin.rb:231-233`). The `String` branch is matched only for strings.
- The `/i` flag is modelled as folding ASCII letters only (`Strings.Fold`, `Strings.Lower`). Ruby also folds some non-ASCII letters: U+017F (long s) folds to `s`, so a type `"\u017Ftring"` takes the line reader in Ruby but matches no branch here.
- The model does not capture that check-in data and the sections hash share the same `Section` objects. After `go` the data holds section values, so aliasing is not observable.
- The three-argument `File.join` (`checkin.rb:182-185`) is modelled as nested two-argument joins.
- `JournalRecord.SortByDate` is a stable insertion sort. Ruby's `sort_by!` is not stable. The model's contract says "sorted by date and a permutation", which holds for either.
- `String#[]=` on a `nil` or numeric value reached through a dotted key is modelled by the error kind Ruby raises (`NoMethod`/`NoConversion`), not by its message.
- `Strings.JoinWith` states only the empty and single-piece cases in its own contract. The general shape of a join is proved where it is used (`JournalWeather.MarkdownHead`, `CheckinMarkdown.MarkdownLayout`).
