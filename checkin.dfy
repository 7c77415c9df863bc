/**
 * `Journal::Checkin`: one check-in of a configured journal. Creating it asks
 * every section's questions and fixes the title; `go` stores the sections as
 * the checkin's data, appends a record to the journal's JSON history and
 * saves the Markdown rendering as the journal's `markdown` setting says. The
 * file system is a map from path to contents.
 */
module JournalCheckin {
  import opened Wrappers
  import opened Strings
  import opened OrderedHash
  import opened Clock
  import opened Answers
  import opened JournalSection
  import opened JournalSections
  import opened JournalRecord
  import opened Foreign
  import opened CheckinMarkdown
  import JournalWeather

  // ---------------------------------------------------------------------------
  // Configuration

  /** A journal's table in the configuration; a key that is absent (or nil) is None. */
  datatype JournalConfig = JournalConfig(
    title: Option<string>,
    sections: Option<seq<SectionConfig>>,
    markdown: Option<string>,
    entriesFolder: Option<string>)

  /** The configuration: the journals by key, and the shared `entries_folder`. */
  datatype Config = Config(journals: map<string, JournalConfig>, entriesFolder: Option<string>)

  // ---------------------------------------------------------------------------
  // The title

  /** `(@date.hour < 13) ? "AM" : "PM"`. */
  function Meridiem(t: Instant): string {
    if Hour(t) < 13 then "AM" else "PM"
  }

  /** `@journal["title"].sub(/%M/, meridian)`. */
  function TitleOf(title: string, t: Instant): string {
    SubFirst(title, "%M", Meridiem(t))
  }

  /** "AM" runs up to and including 12:59:59, "PM" from 13:00:00 on. */
  lemma MeridiemHours(t: Instant)
    ensures Meridiem(t) == "AM" <==> t.secs < 13 * 3600
    ensures Meridiem(t) == "AM" || Meridiem(t) == "PM"
    ensures Meridiem(Instant(t.day, 12 * 3600 + 59 * 60 + 59)) == "AM"
    ensures Meridiem(Instant(t.day, 13 * 3600)) == "PM"
  {
    var h := Hour(t);
    if h < 13 {
      assert h * 3600 <= 12 * 3600;
      assert t.secs < (h + 1) * 3600 <= 13 * 3600;
    } else {
      assert h * 3600 >= 13 * 3600;
    }
    assert Hour(Instant(t.day, 12 * 3600 + 59 * 60 + 59)) == 12;
    assert Hour(Instant(t.day, 13 * 3600)) == 13;
  }

  /** Only the first `%M` of the title is replaced; later ones are left as they are. */
  lemma TitleMeridiem(pre: string, post: string, t: Instant)
    requires forall j :: 0 <= j < |pre| ==> !PrefixAt(pre + "%M" + post, j, "%M", false)
    ensures TitleOf(pre + "%M" + post, t) == pre + Meridiem(t) + post
  {
    var s := pre + "%M" + post;
    assert PrefixAt(s, |pre|, "%M", false) by {
      assert s[|pre|] == '%' && s[|pre| + 1] == 'M';
    }
    var k := FindFrom(s, "%M", 0);
    assert k == Some(|pre|);
    assert s[..|pre|] == pre;
    assert s[|pre| + 2..] == post;
  }

  /** A title without `%M` is kept unchanged. */
  lemma TitleNoMarker(title: string, t: Instant)
    requires forall j :: !PrefixAt(title, j, "%M", false)
    ensures TitleOf(title, t) == title
  {
    var k := FindFrom(title, "%M", 0);
  }

  // ---------------------------------------------------------------------------
  // Creating a checkin

  /**
   * What `Checkin.new(key)` computes, in the order the source does it: the
   * journal must be configured, its sections are built (every question is
   * asked), and then the title is derived.
   */
  function Opened(config: Config, key: string, date: Instant, input: seq<string>): Result<(Hash<SectionValue>, string)> {
    if key !in config.journals then Err(NoJournal(key))
    else
      var j := config.journals[key];
      if j.sections.None? then Err(NoMethod("each"))
      else match BuildAll([], j.sections.value, input)
        case Err(e) => Err(e)
        case Ok(built) =>
          if j.title.None? then Err(NoMethod("sub"))
          else Ok((PutAll([], built), TitleOf(j.title.value, date)))
  }

  /**
   * An unknown key fails before any question is asked, whatever the input;
   * a failure while the sections are built wins over a missing title; on
   * success the sections are those of the configuration, one per distinct
   * key in order of first appearance.
   */
  lemma OpenedOrder(config: Config, key: string, date: Instant, input: seq<string>)
    ensures key !in config.journals ==> forall other :: Opened(config, key, date, other) == Err(NoJournal(key))
    ensures (key in config.journals && config.journals[key].sections.Some? &&
             BuildAll([], config.journals[key].sections.value, input).Err?) ==>
      Opened(config, key, date, input) == Err(BuildAll([], config.journals[key].sections.value, input).error)
    ensures Opened(config, key, date, input).Ok? ==>
      var cfgs := config.journals[key].sections.value;
      var c := Opened(config, key, date, input).value.0;
      && Keys(c) == AppendNew([], Keys(ConfigPairs(cfgs)))
      && (forall k :: Get(c, k).Some? <==> k in Keys(ConfigPairs(cfgs)))
      && Opened(config, key, date, input).value.1 == TitleOf(config.journals[key].title.value, date)
  {
    if Opened(config, key, date, input).Ok? {
      SectionsShape(config.journals[key].sections.value, input);
    }
  }

  // ---------------------------------------------------------------------------
  // Where things are saved

  /** A file's contents, empty when it does not exist (as appending to a new file sees it). */
  function Existing(files: map<string, string>, path: string): string {
    if path in files then files[path] else ""
  }

  /** The folder of the JSON history: the journal's `entries_folder`, else the shared one, else the default. */
  function DataDir(config: Config, journal: JournalConfig, env: Env): string {
    if journal.entriesFolder.Some? then env.expandPath(journal.entriesFolder.value)
    else if config.entriesFolder.Some? then env.expandPath(config.entriesFolder.value)
    else env.expandPath("~/.local/share/journal")
  }

  /** The folder of the single and daily Markdown files (`File.join` of one argument is that argument). */
  function EntriesDir(config: Config, journal: JournalConfig, key: string, env: Env): string {
    if journal.entriesFolder.Some? then FileJoin(env.expandPath(journal.entriesFolder.value), "entries")
    else if config.entriesFolder.Some? then FileJoin(env.expandPath(config.entriesFolder.value), key)
    else env.expandPath("~/.local/share/journal/" + key + "/entries")
  }

  /** The folder of the individual Markdown files. */
  function IndividualDir(config: Config, journal: JournalConfig, key: string, env: Env): string {
    if journal.entriesFolder.Some? then FileJoin(env.expandPath(journal.entriesFolder.value), "entries")
    else if config.entriesFolder.Some? then FileJoin(FileJoin(env.expandPath(config.entriesFolder.value), key), "entries")
    else FileJoin(FileJoin(env.expandPath("~/.local/share/journal"), key), "entries")
  }

  /** What the saving routines read of a checkin: everything but its output buffer. */
  datatype Snapshot = Snapshot(
    key: string,
    date: Instant,
    config: Config,
    journal: JournalConfig,
    title: string,
    data: Hash<SectionValue>,
    sections: Hash<SectionValue>)

  function Markdown(s: Snapshot, f: Flags, env: Env): Result<string> {
    MarkdownText(f, s.title, s.date, s.data, s.sections, env)
  }

  function HistoryPath(s: Snapshot, env: Env): string {
    FileJoin(DataDir(s.config, s.journal, env), s.key + ".json")
  }

  function SingleTarget(s: Snapshot, env: Env): string {
    FileJoin(EntriesDir(s.config, s.journal, s.key, env), s.key + ".md")
  }

  function DailyTarget(s: Snapshot, env: Env): string {
    FileJoin(EntriesDir(s.config, s.journal, s.key, env), s.key + "_" + env.strftime(s.date, "%Y-%m-%d") + ".md")
  }

  function IndividualTarget(s: Snapshot, env: Env): string {
    FileJoin(IndividualDir(s.config, s.journal, s.key, env), env.strftime(s.date, "%Y-%m-%d_%H%M.md"))
  }

  // ---------------------------------------------------------------------------
  // save_data

  /** The records read back from the history file, none when it does not exist. */
  function StoredHistory(s: Snapshot, files: map<string, string>, env: Env): seq<StoredRecord> {
    if HistoryPath(s, env) in files then env.jsonParse(files[HistoryPath(s, env)]) else []
  }

  /** The history `save_data` writes: the stored records and the new one, as time values, by date. */
  function History(s: Snapshot, files: map<string, string>, env: Env): Result<seq<Record>> {
    match RecordOf([], s.data)
    case Err(e) => Err(e)
    case Ok(out) =>
      Ok(SortByDate(NormalisedAll(StoredHistory(s, files, env) + [StoredRecord(TimeStamp(s.date), Tree(out))], env.parseTime)))
  }

  function SavedData(s: Snapshot, files: map<string, string>, env: Env): Result<map<string, string>> {
    match History(s, files, env)
    case Err(e) => Err(e)
    case Ok(h) => Ok(files[HistoryPath(s, env) := Puts(env.jsonGenerate(h))])
  }

  /**
   * The history file afterwards holds the previous records plus exactly the
   * new one, whose date is the checkin's and whose data is the reshaped
   * answers; all dates are time values in ascending order; no other file
   * changes.
   */
  lemma HistorySpec(s: Snapshot, files: map<string, string>, env: Env)
    ensures SavedData(s, files, env).Ok? <==> RecordOf([], s.data).Ok?
    ensures SavedData(s, files, env).Ok? ==>
      var h := History(s, files, env).value;
      var stored := StoredHistory(s, files, env);
      && SavedData(s, files, env).value[HistoryPath(s, env)] == Puts(env.jsonGenerate(h))
      && SortedByDate(h) && |h| == |stored| + 1
      && multiset(h) == multiset(NormalisedAll(stored, env.parseTime)) + multiset{Record(s.date, Tree(RecordOf([], s.data).value))}
      && (forall p :: p != HistoryPath(s, env) ==>
            (p in SavedData(s, files, env).value <==> p in files) &&
            (p in files ==> SavedData(s, files, env).value[p] == files[p]))
  {
    if RecordOf([], s.data).Ok? {
      var out := RecordOf([], s.data).value;
      var stored := StoredHistory(s, files, env);
      var all := NormalisedAll(stored + [StoredRecord(TimeStamp(s.date), Tree(out))], env.parseTime);
      SortByDateSorted(all);
      assert all == NormalisedAll(stored, env.parseTime) + [Record(s.date, Tree(out))];
    }
  }

  // ---------------------------------------------------------------------------
  // The Markdown saves

  /** The files after a save, and the exception that interrupted it, if any. */
  datatype Saved = Saved(files: map<string, string>, error: Option<Error>)

  /**
   * `save_single_markdown`: appends a blank line, the dated title and a blank
   * line, then the rendering; the preamble is already written when the
   * rendering raises.
   */
  function SingleSave(s: Snapshot, files: map<string, string>, env: Env): Saved {
    var target := SingleTarget(s, env);
    var head := Existing(files, target) + "\n" + Puts("## " + s.title + " " + env.strftime(s.date, "%x %X")) + "\n";
    match Markdown(s, Flags(false, false, false, false), env)
    case Err(e) => Saved(files[target := head], Some(e))
    case Ok(md) => Saved(files[target := head + Puts(md)], None)
  }

  /**
   * `save_daily_markdown`: an existing day file gets the rendering (title
   * with time) appended; a new one is written with the front matter.
   */
  function DailySave(s: Snapshot, files: map<string, string>, env: Env): Saved {
    var target := DailyTarget(s, env);
    if target in files then
      match Markdown(s, Flags(false, true, false, true), env)
      case Err(e) => Saved(files, Some(e))
      case Ok(md) => Saved(files[target := files[target] + Puts(md)], None)
    else
      match Markdown(s, Flags(true, true, false, true), env)
      case Err(e) => Saved(files[target := ""], Some(e))
      case Ok(md) => Saved(files[target := Puts(md)], None)
  }

  /** `save_individual_markdown`: a file of its own per checkin, with front matter and title. */
  function IndividualSave(s: Snapshot, files: map<string, string>, env: Env): Saved {
    var target := IndividualTarget(s, env);
    match Markdown(s, Flags(true, true, false, false), env)
    case Err(e) => Saved(files[target := ""], Some(e))
    case Ok(md) => Saved(files[target := Puts(md)], None)
  }

  /** Every file but `target` is as it was. */
  ghost predicate OthersKept(old_: map<string, string>, new_: map<string, string>, target: string) {
    target in new_ && forall p :: p != target ==> (p in new_ <==> p in old_) && (p in old_ ==> new_[p] == old_[p])
  }

  /** The single-file save touches its target only, and the file keeps what it held in front. */
  lemma SingleFrames(s: Snapshot, files: map<string, string>, env: Env)
    ensures OthersKept(files, SingleSave(s, files, env).files, SingleTarget(s, env))
    ensures Existing(files, SingleTarget(s, env)) <= SingleSave(s, files, env).files[SingleTarget(s, env)]
  {
    var target := SingleTarget(s, env);
    var head := Existing(files, target) + "\n" + Puts("## " + s.title + " " + env.strftime(s.date, "%x %X")) + "\n";
    assert Existing(files, target) <= head;
    if Markdown(s, Flags(false, false, false, false), env).Ok? {
      assert head <= head + Puts(Markdown(s, Flags(false, false, false, false), env).value);
    }
  }

  /** The daily save touches its target only, or nothing when it fails; an existing day file keeps what it held in front. */
  lemma DailyFrames(s: Snapshot, files: map<string, string>, env: Env)
    ensures OthersKept(files, DailySave(s, files, env).files, DailyTarget(s, env)) || DailySave(s, files, env).files == files
    ensures DailyTarget(s, env) in files ==> files[DailyTarget(s, env)] <= DailySave(s, files, env).files[DailyTarget(s, env)]
  {
    var target := DailyTarget(s, env);
    if target in files {
      var m := Markdown(s, Flags(false, true, false, true), env);
      if m.Ok? {
        var now := files[target] + Puts(m.value);
        assert DailySave(s, files, env).files == files[target := now];
        UpdateKeepsOthers(files, target, now);
        assert files[target] <= now;
      }
    } else {
      var m := Markdown(s, Flags(true, true, false, true), env);
      var now := if m.Ok? then Puts(m.value) else "";
      assert DailySave(s, files, env).files == files[target := now];
      UpdateKeepsOthers(files, target, now);
    }
  }

  /** Writing one file keeps every other. */
  lemma UpdateKeepsOthers(files: map<string, string>, target: string, contents: string)
    ensures OthersKept(files, files[target := contents], target)
  {
  }

  /** A new day file is written from scratch and opens with the YAML front matter and its closing rule. */
  lemma DailyFresh(s: Snapshot, files: map<string, string>, env: Env)
    requires DailyTarget(s, env) !in files && DailySave(s, files, env).error.None?
    ensures var p := MarkdownPieces(Flags(true, true, false, true), s.title, s.date, s.data, s.sections, env).value;
      |p| >= 2 && p[1] == "---" && DailySave(s, files, env).files[DailyTarget(s, env)] == Puts(JoinWith(p, "\n"))
  {
    MarkdownLayout(Flags(true, true, false, true), s.title, s.date, s.data, s.sections, env);
  }

  /** The individual save touches its target only, a file written from scratch that opens with the YAML front matter. */
  lemma IndividualFrames(s: Snapshot, files: map<string, string>, env: Env)
    ensures OthersKept(files, IndividualSave(s, files, env).files, IndividualTarget(s, env))
    ensures IndividualSave(s, files, env).error.None? ==>
      var p := MarkdownPieces(Flags(true, true, false, false), s.title, s.date, s.data, s.sections, env).value;
      |p| >= 2 && p[1] == "---" && IndividualSave(s, files, env).files[IndividualTarget(s, env)] == Puts(JoinWith(p, "\n"))
  {
    MarkdownLayout(Flags(true, true, false, false), s.title, s.date, s.data, s.sections, env);
  }

  /** A joined path ends with the name's extension. */
  lemma JoinSuffix(dir: string, x: string, t: string)
    ensures |FileJoin(dir, x + t)| >= |t| && FileJoin(dir, x + t)[|FileJoin(dir, x + t)| - |t|..] == t
  {
    var r := FileJoin(dir, x + t);
    var u := x + t;
    assert r[|r| - |u|..] == u;
    assert u[|x|..] == t;
    assert r[|r| - |t|..] == r[|r| - |u|..][|x|..];
  }

  /** The single and daily Markdown files are never the JSON history (they end in `.md`, it in `.json`). */
  lemma MarkdownIsNotHistory(s: Snapshot, env: Env)
    ensures SingleTarget(s, env) != HistoryPath(s, env)
    ensures DailyTarget(s, env) != HistoryPath(s, env)
  {
    var h := HistoryPath(s, env);
    JoinSuffix(DataDir(s.config, s.journal, env), s.key, ".json");
    JoinSuffix(EntriesDir(s.config, s.journal, s.key, env), s.key, ".md");
    var d := s.key + "_" + env.strftime(s.date, "%Y-%m-%d");
    assert s.key + "_" + env.strftime(s.date, "%Y-%m-%d") + ".md" == d + ".md";
    JoinSuffix(EntriesDir(s.config, s.journal, s.key, env), d, ".md");
    assert h[|h| - 1] == 'n';
    var a := SingleTarget(s, env);
    assert a[|a| - 1] == 'd';
    var b := DailyTarget(s, env);
    assert b[|b| - 1] == 'd';
  }

  // ---------------------------------------------------------------------------
  // go

  datatype Mode = NoMarkdown | DailyMode | IndividualMode | SingleMode

  /** The `case` of `go`: `/^da(y|ily)/`, then `/^(ind|sep)/`, else the single file; nil saves no Markdown. */
  function ModeOf(m: Option<string>): Mode {
    if m.None? then NoMarkdown
    else if StartsLine(m.value, "day", false) || StartsLine(m.value, "daily", false) then DailyMode
    else if StartsLine(m.value, "ind", false) || StartsLine(m.value, "sep", false) then IndividualMode
    else SingleMode
  }

  /** A setting that begins with `w` matches `/^w/`. */
  lemma StartsAtZero(s: string, w: string)
    requires |w| <= |s| && s[..|w|] == w
    ensures StartsLine(s, w, false)
  {
    PrefixExact(s, 0, w);
    assert s[0..|w|] == s[..|w|];
    assert LineStart(s, 0);
  }

  /** The settings people write pick the routine they name: `daily` and `day`; */
  lemma ModeNamedDaily()
    ensures ModeOf(Some("daily")) == DailyMode && ModeOf(Some("day")) == DailyMode
  {
    StartsAtZero("daily", "daily");
    StartsAtZero("day", "day");
  }

  /** and `individual` and `separate`. */
  lemma ModeNamedIndividual()
    ensures ModeOf(Some("individual")) == IndividualMode && ModeOf(Some("separate")) == IndividualMode
  {
    NotDaily("individual");
    NotDaily("separate");
    StartsAtZero("individual", "ind");
    StartsAtZero("separate", "sep");
  }

  /** A one-line setting is not daily when it does not start with `d`. */
  lemma NotDaily(m: string)
    requires '\n' !in m && |m| >= 1 && m[0] != 'd'
    ensures !StartsLine(m, "day", false) && !StartsLine(m, "daily", false)
  {
    StartsLineSingle(m, "day", false);
    StartsLineSingle(m, "daily", false);
    PrefixExact(m, 0, "day");
    PrefixExact(m, 0, "daily");
    if |m| >= 3 {
      assert m[0..3][0] != "day"[0];
    }
    if |m| >= 5 {
      assert m[0..5][0] != "daily"[0];
    }
  }

  /** A value matching none of the patterns, even `dairy`, saves to the single file. */
  lemma ModeOther()
    ensures ModeOf(Some("single")) == SingleMode && ModeOf(Some("dairy")) == SingleMode
  {
    NotDaily("single");
    StartsLineSingle("single", "ind", false);
    StartsLineSingle("single", "sep", false);
    PrefixExact("single", 0, "ind");
    PrefixExact("single", 0, "sep");
    assert "single"[0..3][0] != "ind"[0] && "single"[0..3][1] != "sep"[1];
    StartsLineSingle("dairy", "day", false);
    StartsLineSingle("dairy", "daily", false);
    StartsLineSingle("dairy", "ind", false);
    StartsLineSingle("dairy", "sep", false);
    PrefixExact("dairy", 0, "day");
    PrefixExact("dairy", 0, "daily");
    PrefixExact("dairy", 0, "ind");
    PrefixExact("dairy", 0, "sep");
    assert "dairy"[0..3][2] != "day"[2] && "dairy"[0..5][3] != "daily"[3];
    assert "dairy"[0..3][0] != "ind"[0] && "dairy"[0..3][0] != "sep"[0];
  }

  /** `^` anchors at every line, so a later line can choose the routine. */
  lemma ModeLaterLine()
    ensures ModeOf(Some("x\ndaily")) == DailyMode
  {
    PrefixExact("x\ndaily", 2, "daily");
    assert "x\ndaily"[2..7] == "daily";
    assert LineStart("x\ndaily", 2);
  }

  /** `go` after the sections are stored: the history, then the Markdown the mode asks for. */
  function GoSpec(s: Snapshot, files: map<string, string>, env: Env): Saved {
    match SavedData(s, files, env)
    case Err(e) => Saved(files, Some(e))
    case Ok(f1) => GoAfterData(s, f1, env)
  }

  /** The Markdown routine the journal's setting picks, run once the history is saved. */
  function GoAfterData(s: Snapshot, f1: map<string, string>, env: Env): Saved {
    match ModeOf(s.journal.markdown)
    case NoMarkdown => Saved(f1, None)
    case DailyMode => DailySave(s, f1, env)
    case IndividualMode => IndividualSave(s, f1, env)
    case SingleMode => SingleSave(s, f1, env)
  }

  /** Saving the single or daily Markdown leaves the history that `save_data` wrote in place. */
  lemma GoKeepsHistory(s: Snapshot, files: map<string, string>, env: Env)
    requires SavedData(s, files, env).Ok? && ModeOf(s.journal.markdown) != IndividualMode
    ensures HistoryPath(s, env) in GoSpec(s, files, env).files
    ensures GoSpec(s, files, env).files[HistoryPath(s, env)] == Puts(env.jsonGenerate(History(s, files, env).value))
  {
    var f1 := SavedData(s, files, env).value;
    HistorySpec(s, files, env);
    MarkdownIsNotHistory(s, env);
    SingleFrames(s, f1, env);
    DailyFrames(s, f1, env);
  }

  /**
   * The data `go` stores is the sections' map itself, and running `go` again
   * stores the same data.
   */
  lemma GoDataStable(c: Hash<SectionValue>)
    requires Distinct(Keys(c))
    ensures PutAll([], c) == c
    ensures PutAll(PutAll([], c), c) == PutAll([], c)
  {
    PutAllFresh([], c);
    assert [] + c == c;
    forall i | 0 <= i < |c| ensures Get(c, c[i].0) == Some(c[i].1) {
      GetDistinct(c, i);
    }
    PutAllHeld(c, c);
  }

  // ---------------------------------------------------------------------------
  // The checkin

  class Checkin {
    const key: string
    const date: Instant
    const config: Config
    const journal: JournalConfig
    const sections: Sections
    const title: string
    var data: Hash<SectionValue>
    var output: seq<string>

    ghost predicate Valid()
      reads sections
    {
      sections.Valid() && key in config.journals && journal == config.journals[key]
    }

    /** The state of a created checkin: no data and no output yet. */
    constructor(key: string, date: Instant, config: Config, sections: Sections, title: string)
      requires key in config.journals && sections.Valid()
      ensures this.key == key && this.date == date && this.config == config && this.sections == sections
      ensures this.title == title && journal == config.journals[key]
      ensures Valid() && data == [] && output == []
    {
      this.key := key;
      this.date := date;
      this.config := config;
      this.journal := config.journals[key];
      this.sections := sections;
      this.title := title;
      data := [];
      output := [];
    }

    ghost function Snap(): Snapshot
      requires Valid()
      reads this`data, sections, sections.repr
    {
      Snapshot(key, date, config, journal, title, data, sections.Contents())
    }

    /** `add_title`. */
    method AddTitle(s: Option<string>)
      modifies this`output
      ensures output == old(output) + (if s.Some? then [TitlePiece(s.value)] else [])
    {
      if s.Some? {
        output := output + [TitlePiece(s.value)];
      }
    }

    /** `header`. */
    method Header(s: Option<string>)
      modifies this`output
      ensures output == old(output) + OptHeader(s)
    {
      if s.Some? {
        output := output + [HeaderPiece(s.value)];
      }
    }

    /** `section`. */
    method SectionHeader(s: Option<string>)
      modifies this`output
      ensures output == old(output) + OptSection(s)
    {
      if s.Some? {
        output := output + [SectionPiece(s.value)];
      }
    }

    /** `newline`. */
    method Newline()
      modifies this`output
      ensures output == old(output) + ["\n"]
    {
      output := output + ["\n"];
    }

    /** `hr`. */
    method Hr()
      modifies this`output
      ensures output == old(output) + [Rule]
    {
      output := output + [Rule];
    }

    /**
     * `print_answer`: appends the pieces of the answer; when it raises, a
     * weather answer has already had its header appended.
     */
    method PrintAnswer(prompt: Option<string>, qtype: Option<string>, k: Option<string>, d: Value, env: Env) returns (err: Option<Error>)
      modifies this`output
      ensures err.None? <==> AnswerPieces(prompt, qtype, k, d, env).Ok?
      ensures err.None? ==> output == old(output) + AnswerPieces(prompt, qtype, k, d, env).value
      ensures err.Some? ==> err.value == AnswerPieces(prompt, qtype, k, d, env).error
      ensures err.Some? ==> output == old(output) + (if d.Tree? && WeatherType(qtype) then OptHeader(prompt) else [])
    {
      if d.Nil? {
        return None;
      }
      if !d.Tree? {
        return Some(NoMethod("key?"));
      }
      if k.None? {
        return None;
      }
      var found := Get(d.entries, k.value);
      if found.None? || found.value.Nil? {
        return None;
      }
      var v := found.value;
      if WeatherType(qtype) {
        Header(prompt);
        var w := WeatherPiece(qtype.value, v);
        if w.Err? {
          return Some(w.error);
        }
        output := output + [w.value];
      } else if NumberType(qtype) {
        output := output + [Interpolate(prompt) + ": " + ValueText(v, env) + "  "];
      } else if DateType(qtype) {
        if !v.Time? {
          return Some(NoMethod("strftime"));
        }
        output := output + [Interpolate(prompt) + ": " + env.strftime(v.t, "%Y-%m-%d %H:%M")];
      } else {
        if !v.Str? {
          return Some(NoMethod("strip"));
        }
        if Strip(v.s) != [] {
          Header(prompt);
          output := output + [v.s];
        }
        Hr();
      }
      err := None;
    }

    /** `weather_to_yaml`: the front-matter form of the map `t`. */
    method WeatherToYaml(t: Value, env: Env) returns (d: Hash<Value>)
      requires t.Tree?
      ensures d == YamlFrom(t, 0, [], env)
      decreases t
    {
      d := [];
      var i := 0;
      while i < |t.entries|
        invariant 0 <= i <= |t.entries|
        invariant YamlFrom(t, i, d, env) == YamlFrom(t, 0, [], env)
      {
        var k, v := t.entries[i].0, t.entries[i].1;
        assert t.entries[i] in t.entries;
        ghost var d0 := d;
        match v {
          case Str(_) =>
          case Tree(_) =>
            var sub := WeatherToYaml(v, env);
            d := Put(d, k, Tree(sub));
          case Weather(w) =>
            var text;
            if EndsLine(k, "current") {
              text := JournalWeather.Current(w);
            } else if EndsLine(k, "forecast") {
              text := JournalWeather.Forecast(w);
            } else if MoonKey(k) {
              text := JournalWeather.Moon(w);
            } else {
              text := env.weatherToS(w);
            }
            d := Put(d, k, Str(text));
          case _ =>
            d := Put(d, k, v);
        }
        assert d == YamlStep(t, i, d0, env);
        i := i + 1;
      }
    }

    /** The `yaml_data` of `to_markdown`: title and date, merged with every section's converted answers. */
    method YamlData(env: Env) returns (y: Hash<Value>)
      ensures y == FrontMatter(title, date, data, env)
    {
      y := [("title", Str(title)), ("date", Str(env.strftime(date, "%x %X")))];
      var n := 0;
      while n < |data|
        invariant 0 <= n <= |data|
        invariant MergeFrom(y, data[n..], env) == FrontMatter(title, date, data, env)
      {
        assert data[n..][1..] == data[n + 1..];
        var conv := WeatherToYaml(Tree(data[n].1.answers), env);
        y := PutAll(y, conv);
        n := n + 1;
      }
      assert data[n..] == [];
    }

    /** The front matter and the title, as far as the flags ask for them. */
    method Head(f: Flags, env: Env)
      modifies this`output
      ensures output == old(output) + HeadPieces(f, title, date, data, env)
    {
      if f.yaml {
        var y := YamlData(env);
        output := output + [Strip(env.yamlDump(y)), "---"];
      }
      if f.title {
        if f.date || f.time {
          var fmt := "";
          if f.date {
            fmt := fmt + "%x";
          }
          if f.time {
            fmt := fmt + "%X";
          }
          assert fmt == TitleFormat(f);
          AddTitle(Some(title + " " + env.strftime(date, fmt)));
        } else {
          AddTitle(Some(title));
        }
      }
    }

    /** One question of `to_markdown`: a dotted key is looked up in the map its leading keys reach. */
    method PrintQuestion(q: Questions.Question, answers: Hash<Value>, env: Env) returns (err: Option<Error>)
      modifies this`output
      ensures err.None? <==> QuestionPieces(q, answers, env).Ok?
      ensures err.None? ==> output == old(output) + QuestionPieces(q, answers, env).value
      ensures err.Some? ==> err.value == QuestionPieces(q, answers, env).error
    {
      if '.' in q.key {
        var keys := SplitDots(q.key);
        if |keys| == 0 {
          err := PrintAnswer(q.prompt, q.qtype, None, Tree(answers), env);
        } else {
          var lead := keys[..|keys| - 1];
          var res := Tree(answers);
          var m := 0;
          while m < |lead|
            invariant 0 <= m <= |lead|
            invariant Walk(res, lead[m..]) == Walk(Tree(answers), lead)
          {
            assert lead[m..][1..] == lead[m + 1..];
            var step := Index(res, lead[m]);
            if step.Err? {
              return Some(step.error);
            }
            res := step.value;
            m := m + 1;
          }
          assert lead[m..] == [];
          err := PrintAnswer(q.prompt, q.qtype, Some(keys[|keys| - 1]), res, env);
        }
      } else {
        err := PrintAnswer(q.prompt, q.qtype, Some(q.key), Tree(answers), env);
      }
    }

    /** One section of `to_markdown`: its title, then its questions in order. */
    method Body(title: Option<string>, qs: seq<Questions.Question>, answers: Hash<Value>, env: Env) returns (err: Option<Error>)
      modifies this`output
      ensures err.None? <==> QuestionsFrom(old(output) + OptSection(title), qs, answers, env).Ok?
      ensures err.None? ==> output == QuestionsFrom(old(output) + OptSection(title), qs, answers, env).value
      ensures err.Some? ==> err.value == QuestionsFrom(old(output) + OptSection(title), qs, answers, env).error
    {
      SectionHeader(title);
      ghost var start := output;
      var j := 0;
      while j < |qs|
        invariant 0 <= j <= |qs|
        invariant QuestionsFrom(output, qs[j..], answers, env) == QuestionsFrom(start, qs, answers, env)
      {
        assert qs[j..][1..] == qs[j + 1..];
        err := PrintQuestion(qs[j], answers, env);
        if err.Some? {
          return;
        }
        j := j + 1;
      }
      assert qs[j..] == [];
      err := None;
    }

    /** The sections part of `to_markdown`: every section in order, stopping at the first error. */
    method RenderSections(env: Env) returns (err: Option<Error>)
      requires Valid()
      modifies this`output
      ensures err.None? <==> BodyFrom(old(output), sections.Contents(), env).Ok?
      ensures err.None? ==> output == BodyFrom(old(output), sections.Contents(), env).value
      ensures err.Some? ==> err.value == BodyFrom(old(output), sections.Contents(), env).error
    {
      ghost var secs := sections.Contents();
      ghost var goal := BodyFrom(output, secs, env);
      assert secs[0..] == secs;
      var i := 0;
      while i < |sections.entries|
        invariant 0 <= i <= |sections.entries|
        invariant BodyFrom(output, secs[i..], env) == goal
      {
        var s := sections.entries[i].1;
        assert secs[i] == (sections.entries[i].0, s.Value());
        BodyFromStep(output, secs, i, env);
        err := Body(s.title, s.questions, s.answers, env);
        if err.Some? {
          return;
        }
        i := i + 1;
      }
      assert secs[i..] == [];
      err := None;
    }

    /**
     * `to_markdown`: the output is cleared first, so the result depends on the
     * flags and the checkin's data and sections only.
     */
    method ToMarkdown(f: Flags, env: Env) returns (r: Result<string>)
      requires Valid()
      modifies this`output
      ensures r == MarkdownText(f, title, date, data, sections.Contents(), env)
      ensures r.Ok? ==> output == MarkdownPieces(f, title, date, data, sections.Contents(), env).value
    {
      output := [];
      Head(f, env);
      assert output == HeadPieces(f, title, date, data, env);
      var err := RenderSections(env);
      if err.Some? {
        return Err(err.value);
      }
      r := Ok(JoinWith(output, "\n"));
    }

    /** `save_data`: the history file gains the record of this checkin. */
    method SaveData(files: map<string, string>, env: Env) returns (r: Result<map<string, string>>)
      requires Valid()
      ensures r == SavedData(Snap(), files, env)
    {
      var dir := DataDir(config, journal, env);
      var db := FileJoin(dir, key + ".json");
      var stored: seq<StoredRecord> := if db in files then env.jsonParse(files[db]) else [];
      var out := BuildRecord(data);
      if out.Err? {
        return Err(out.error);
      }
      var history := AppendRecord(stored, StoredRecord(TimeStamp(date), Tree(out.value)), env.parseTime);
      r := Ok(files[db := Puts(env.jsonGenerate(history))]);
    }

    method SaveSingle(files: map<string, string>, env: Env) returns (r: Saved)
      requires Valid()
      modifies this`output
      ensures r == SingleSave(Snap(), files, env)
    {
      var dir := EntriesDir(config, journal, key, env);
      var target := FileJoin(dir, key + ".md");
      var text := if target in files then files[target] else "";
      text := text + "\n";
      text := text + Puts("## " + title + " " + env.strftime(date, "%x %X"));
      text := text + "\n";
      var md := ToMarkdown(Flags(false, false, false, false), env);
      if md.Err? {
        return Saved(files[target := text], Some(md.error));
      }
      r := Saved(files[target := text + Puts(md.value)], None);
    }

    method SaveDaily(files: map<string, string>, env: Env) returns (r: Saved)
      requires Valid()
      modifies this`output
      ensures r == DailySave(Snap(), files, env)
    {
      var dir := EntriesDir(config, journal, key, env);
      var target := FileJoin(dir, key + "_" + env.strftime(date, "%Y-%m-%d") + ".md");
      if target in files {
        var md := ToMarkdown(Flags(false, true, false, true), env);
        if md.Err? {
          return Saved(files, Some(md.error));
        }
        r := Saved(files[target := files[target] + Puts(md.value)], None);
      } else {
        var md := ToMarkdown(Flags(true, true, false, true), env);
        if md.Err? {
          return Saved(files[target := ""], Some(md.error));
        }
        r := Saved(files[target := Puts(md.value)], None);
      }
    }

    method SaveIndividual(files: map<string, string>, env: Env) returns (r: Saved)
      requires Valid()
      modifies this`output
      ensures r == IndividualSave(Snap(), files, env)
    {
      var dir := IndividualDir(config, journal, key, env);
      var target := FileJoin(dir, env.strftime(date, "%Y-%m-%d_%H%M.md"));
      var md := ToMarkdown(Flags(true, true, false, false), env);
      if md.Err? {
        return Saved(files[target := ""], Some(md.error));
      }
      r := Saved(files[target := Puts(md.value)], None);
    }

    /** The first line of `go`: every section is assigned into the data under its key. */
    method StoreSections()
      requires Valid()
      modifies this`data
      ensures data == PutAll(old(data), sections.Contents())
      ensures output == old(output)
    {
      ghost var c := sections.Contents();
      var i := 0;
      while i < |sections.entries|
        invariant 0 <= i <= |sections.entries| && output == old(output)
        invariant data == PutAll(old(data), c[..i])
      {
        var k, s := sections.entries[i].0, sections.entries[i].1;
        var v := s.Value();
        assert c[i] == (k, v);
        TakeSnoc(c, i);
        PutAllSnoc(old(data), c[..i], k, v);
        data := Put(data, k, v);
        i := i + 1;
      }
      assert c[..i] == c;
    }

    /**
     * `go`: every section is assigned into the data under its key, then the
     * history and the Markdown are saved.
     */
    method Go(files: map<string, string>, env: Env) returns (r: Saved)
      requires Valid()
      modifies this
      ensures data == PutAll(old(data), sections.Contents())
      ensures r == GoSpec(Snap(), files, env)
    {
      StoreSections();
      ghost var s0 := Snap();
      var saved := SaveData(files, env);
      if saved.Err? {
        return Saved(files, Some(saved.error));
      }
      assert GoSpec(s0, files, env) == GoAfterData(s0, saved.value, env);
      r := SaveMarkdown(saved.value, env);
    }

    /** The `case` of `go` on the journal's `markdown` setting. */
    method SaveMarkdown(files: map<string, string>, env: Env) returns (r: Saved)
      requires Valid()
      modifies this`output
      ensures r == GoAfterData(Snap(), files, env)
    {
      match ModeOf(journal.markdown)
      case NoMarkdown =>
        r := Saved(files, None);
      case DailyMode =>
        r := SaveDaily(files, env);
      case IndividualMode =>
        r := SaveIndividual(files, env);
      case SingleMode =>
        r := SaveSingle(files, env);
    }
  }

  /** `Checkin.new(key)`. */
  method Open(config: Config, key: string, date: Instant, input: seq<string>) returns (r: Result<Checkin>)
    ensures r.Ok? <==> Opened(config, key, date, input).Ok?
    ensures r.Err? ==> r.error == Opened(config, key, date, input).error
    ensures r.Ok? ==> fresh(r.value) && r.value.Valid() && r.value.key == key && r.value.date == date
    ensures r.Ok? ==> r.value.config == config && r.value.data == [] && r.value.output == []
    ensures r.Ok? ==> (r.value.sections.Contents(), r.value.title) == Opened(config, key, date, input).value
  {
    if key !in config.journals {
      return Err(NoJournal(key));
    }
    var journal := config.journals[key];
    if journal.sections.None? {
      return Err(NoMethod("each"));
    }
    var built := NewSections(journal.sections.value, input);
    if built.Err? {
      return Err(built.error);
    }
    if journal.title.None? {
      return Err(NoMethod("sub"));
    }
    var c := new Checkin(key, date, config, built.value.0, TitleOf(journal.title.value, date));
    r := Ok(c);
  }
}
