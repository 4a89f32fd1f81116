/**
 * The bot itself (bot.py): the stored listing, the update that diffs a fresh
 * fetch against it, clearing it, and the messages the bot sends. Discord,
 * the timer loop, the clock and data.json's JSON encoding are abstracted:
 * the time of an update is a parameter, the file is the snapshot it holds,
 * and a message is its heading and description.
 */
module Bot {
  import opened Wrappers
  import opened Text
  import opened Scraper

  /** A `datetime` value; the model only stores and compares it. */
  datatype Timestamp = Timestamp(microseconds: int)

  /** The `data` global: `tuple()` or `(time, entries)`. */
  datatype State = Empty | Loaded(time: Timestamp, entries: seq<Entry>)

  /**
   * data.json: absent, holding a snapshot this bot wrote, or left over from
   * an earlier run in a shape whose loading failed (the bot then started with
   * no data and left the file in place).
   */
  datatype DataFile = Missing | Written(time: Timestamp, entries: seq<Entry>) | Unparsed

  datatype BotState = BotState(data: State, file: DataFile)

  /** The file holds exactly what is in memory. */
  predicate Synced(b: BotState) {
    match b.data
    case Empty => b.file.Missing?
    case Loaded(t, es) => b.file == Written(t, es)
  }

  /** Who asked for the update: the `update` command or the periodic task. */
  datatype Trigger = Command | Timer

  /** What an update found, which decides the message the bot sends. */
  datatype Outcome =
    | NoScraper                          // no logged-in scraper: nothing fetched
    | FetchFailed                        // the fetch came back empty
    | NewFound(found: seq<Entry>)        // "Lowongan baru unlocked!" with these entries
    | NoNew                              // "Belum ada lowongan baru."
    | FullListing(listing: seq<Entry>)   // the periodic task's first listing, with no earlier data

  datatype Step = Step(next: BotState, outcome: Outcome)

  /** `set([entry["title"] for entry in entries])`. */
  function Titles(entries: seq<Entry>): (r: set<string>)
    ensures forall e :: e in entries ==> e.title in r
    ensures forall t :: t in r ==> exists e :: e in entries && e.title == t
  {
    set e | e in entries :: e.title
  }

  /** `xs` is `ys` with some elements left out, the rest kept in order. */
  ghost predicate IsSubsequence<T>(xs: seq<T>, ys: seq<T>)
    decreases |ys|
  {
    if xs == [] then true
    else if ys == [] then false
    else (xs[0] == ys[0] && IsSubsequence(xs[1..], ys[1..])) || IsSubsequence(xs, ys[1..])
  }

  /**
   * `[entry for entry in fetched if entry["title"] not in seen]`: every
   * fetched entry with an unseen title, as often and in the order the fetch
   * has it, and nothing else.
   */
  function FilterNew(seen: set<string>, fetched: seq<Entry>): (r: seq<Entry>)
    ensures IsSubsequence(r, fetched)
    ensures forall e :: e in r <==> e in fetched && e.title !in seen
    ensures forall e :: multiset(r)[e] == if e.title in seen then 0 else multiset(fetched)[e]
  {
    if fetched == [] then []
    else
      assert fetched == [fetched[0]] + fetched[1..];
      var rest := FilterNew(seen, fetched[1..]);
      if fetched[0].title in seen then rest
      else
        assert ([fetched[0]] + rest)[1..] == rest;
        [fetched[0]] + rest
  }

  /**
   * The new entries of a fetch: all of it when nothing is stored, otherwise
   * the fetched entries whose title no stored entry has.
   */
  function NewEntries(data: State, fetched: seq<Entry>): (r: seq<Entry>)
    ensures data.Empty? ==> r == fetched
    ensures data.Loaded? ==> forall e :: e in r <==> e in fetched && e.title !in Titles(data.entries)
    ensures data.Loaded? ==> forall e :: multiset(r)[e] == if e.title in Titles(data.entries) then 0 else multiset(fetched)[e]
    ensures IsSubsequence(r, fetched)
  {
    match data
    case Empty => SubsequenceRefl(fetched); fetched
    case Loaded(_, stored) => FilterNew(Titles(stored), fetched)
  }

  lemma {:induction false} SubsequenceRefl<T>(xs: seq<T>)
    ensures IsSubsequence(xs, xs)
    decreases |xs|
  {
    if xs != [] {
      SubsequenceRefl(xs[1..]);
    }
  }

  /** Filtering finds nothing exactly when every fetched title has been seen. */
  lemma NothingNewIffCovered(seen: set<string>, fetched: seq<Entry>)
    ensures FilterNew(seen, fetched) == [] <==> Titles(fetched) <= seen
  {
    var r := FilterNew(seen, fetched);
    if r == [] {
      forall t | t in Titles(fetched) ensures t in seen {
        var e :| e in fetched && e.title == t;
        assert e !in r;
      }
    } else {
      assert r[0] in r;
      assert r[0].title in Titles(fetched) && r[0].title !in seen;
    }
  }

  /** The `update` command's classification as written, title-set shortcut included (bot.py:119-150). */
  function ClassifyCommand(data: State, fetched: seq<Entry>): Outcome
  {
    if data.Empty? || Titles(fetched) != Titles(data.entries) then
      var novel := if data.Loaded? then FilterNew(Titles(data.entries), fetched) else fetched;
      if novel != [] then NewFound(novel) else NoNew
    else
      NoNew
  }

  /** The periodic task's classification as written (bot.py:197-229). */
  function ClassifyTimer(data: State, fetched: seq<Entry>): Outcome
  {
    if data.Empty? then FullListing(fetched)
    else
      var novel := FilterNew(Titles(data.entries), fetched);
      if novel != [] then NewFound(novel) else NoNew
  }

  /** The classification the diff alone gives, with no shortcut. */
  function ClassifyByDiff(data: State, fetched: seq<Entry>): Outcome
  {
    var novel := NewEntries(data, fetched);
    if novel != [] then NewFound(novel) else NoNew
  }

  /**
   * The shortcut of the `update` command, which answers "no new entries" as
   * soon as the fetched and stored title sets are equal, never changes the
   * outcome: computing the diff in that case also finds nothing.
   */
  lemma ShortcutNeverChangesOutcome(data: State, fetched: seq<Entry>)
    ensures ClassifyCommand(data, fetched) == ClassifyByDiff(data, fetched)
  {
    if data.Loaded? && Titles(fetched) == Titles(data.entries) {
      NothingNewIffCovered(Titles(data.entries), fetched);
    }
  }

  /**
   * One update, from the command or the timer. Without a scraper, or when
   * the fetch is empty, nothing changes and nothing is written. Otherwise the
   * stored data and the file are both replaced by `(now, fetched)`, and the
   * outcome reports the entries whose titles were not stored before.
   */
  function Update(trigger: Trigger, b: BotState, scraperOk: bool, fetched: seq<Entry>, now: Timestamp): (r: Step)
    ensures !scraperOk ==> r == Step(b, NoScraper)
    ensures scraperOk && fetched == [] ==> r == Step(b, FetchFailed)
    ensures scraperOk && fetched != [] ==>
              && r.next.data == Loaded(now, fetched)
              && r.next.file == Written(now, fetched)
              && Synced(r.next)
    ensures scraperOk && fetched != [] && !(trigger.Timer? && b.data.Empty?) && NewEntries(b.data, fetched) != [] ==>
              r.outcome == NewFound(NewEntries(b.data, fetched))
    ensures r.outcome.NewFound? ==>
              && r.outcome.found == NewEntries(b.data, fetched)
              && r.outcome.found != []
              && IsSubsequence(r.outcome.found, fetched)
    ensures r.outcome.NoNew? <==>
              scraperOk && fetched != [] && b.data.Loaded? && Titles(fetched) <= Titles(b.data.entries)
    ensures r.outcome.FullListing? <==> trigger == Timer && scraperOk && fetched != [] && b.data.Empty?
    ensures r.outcome.FullListing? ==> r.outcome.listing == fetched
  {
    if !scraperOk then Step(b, NoScraper)
    else if fetched == [] then Step(b, FetchFailed)
    else
      var outcome := match trigger
        case Command => ClassifyCommand(b.data, fetched)
        case Timer => ClassifyTimer(b.data, fetched);
      ShortcutNeverChangesOutcome(b.data, fetched);
      assert b.data.Loaded? ==> (FilterNew(Titles(b.data.entries), fetched) == [] <==> Titles(fetched) <= Titles(b.data.entries)) by {
        if b.data.Loaded? { NothingNewIffCovered(Titles(b.data.entries), fetched); }
      }
      Step(BotState(Loaded(now, fetched), Written(now, fetched)), outcome)
  }

  /**
   * The command and the timer update the state identically and report the
   * same outcome, except on the first fetch with no stored data: the command
   * then calls every entry new, the timer posts the full listing.
   */
  lemma TriggersAgree(b: BotState, scraperOk: bool, fetched: seq<Entry>, now: Timestamp)
    ensures Update(Command, b, scraperOk, fetched, now).next == Update(Timer, b, scraperOk, fetched, now).next
    ensures scraperOk && fetched != [] && b.data.Empty? ==>
              && Update(Command, b, scraperOk, fetched, now).outcome == NewFound(fetched)
              && Update(Timer, b, scraperOk, fetched, now).outcome == FullListing(fetched)
    ensures !(scraperOk && fetched != [] && b.data.Empty?) ==>
              Update(Command, b, scraperOk, fetched, now).outcome == Update(Timer, b, scraperOk, fetched, now).outcome
  {
    if scraperOk && fetched != [] && b.data.Loaded? {
      ShortcutNeverChangesOutcome(b.data, fetched);
    }
  }

  /** Updates keep memory and file in agreement. */
  lemma UpdateKeepsSynced(trigger: Trigger, b: BotState, scraperOk: bool, fetched: seq<Entry>, now: Timestamp)
    requires Synced(b)
    ensures Synced(Update(trigger, b, scraperOk, fetched, now).next)
  {
  }

  /** The `clear` command: forget the data and delete data.json. */
  function Clear(b: BotState): (r: BotState)
    ensures r.data.Empty? && r.file.Missing?
    ensures Synced(r)
  {
    BotState(Empty, Missing)
  }

  lemma ClearIdempotent(b: BotState)
    ensures Clear(Clear(b)) == Clear(b)
  {
  }

  // ----- Messages -----

  /** An embed title; the timestamp rendering (`strftime`) is left abstract. */
  datatype Heading = Plain(text: string) | AsOf(caption: string, time: Timestamp)

  /** A plain text reply, or an embed with a heading and an optional description. */
  datatype Message = Notice(text: string) | Embed(heading: Heading, description: Option<string>)

  const BulletMark: char := '\U{2022}'
  const Separator := "\n\n"
  const TitleOpen := " **"
  const TitleClose := "**\n[Daftar]("
  const LinkClose := ")"
  const ListingIntro := "List lowongan asdos yang buka:\n\n"
  const NoNewText := "Belum ada lowongan baru."

  const NoDataMessage := Embed(Plain("There's no lowongan data."), Some("Update the data using command `-update`."))
  const NoScraperNotice := Notice("Scraper is not initialized. Unable to update lowongan.")
  const FetchFailedNotice := Notice("Failed to retrieve lowongan data.")

  /** The bullet line of one entry: its title in bold and its "Daftar" link. */
  function Bullet(e: Entry): string {
    [BulletMark] + TitleOpen + e.title + TitleClose + e.daftarLink + LinkClose
  }

  /** The bullet of each entry, in order. */
  function Bullets(es: seq<Entry>): (r: seq<string>)
    ensures |r| == |es|
  {
    if es == [] then [] else [Bullet(es[0])] + Bullets(es[1..])
  }

  /** Bullet `i` is the bullet of entry `i`. */
  lemma {:induction false} BulletsAt(es: seq<Entry>, i: nat)
    requires i < |es|
    ensures Bullets(es)[i] == Bullet(es[i])
  {
    if i > 0 {
      BulletsAt(es[1..], i - 1);
    }
  }

  /** `"\n\n".join` of the entries' bullets. */
  function BulletList(es: seq<Entry>): string {
    Join(Separator, Bullets(es))
  }

  /** The entry's own text has no bullet mark in it. */
  predicate Unmarked(e: Entry) {
    BulletMark !in e.title && BulletMark !in e.daftarLink
  }

  /** The fixed texts around the entries carry no bullet mark. */
  lemma IntroUnmarked()
    ensures Occurrences(BulletMark, ListingIntro) == 0
  {
    OccurrencesAbsent(BulletMark, ListingIntro);
  }

  lemma SeparatorUnmarked()
    ensures Occurrences(BulletMark, Separator) == 0
  {
    OccurrencesAbsent(BulletMark, Separator);
  }

  lemma TitleCloseUnmarked()
    ensures Occurrences(BulletMark, TitleClose) == 0
  {
    OccurrencesAbsent(BulletMark, TitleClose);
  }

  lemma ShortTextsUnmarked()
    ensures Occurrences(BulletMark, TitleOpen) == 0
    ensures Occurrences(BulletMark, LinkClose) == 0
  {
    OccurrencesAbsent(BulletMark, TitleOpen);
    OccurrencesAbsent(BulletMark, LinkClose);
  }

  lemma BulletHasOneMark(e: Entry)
    requires Unmarked(e)
    ensures Occurrences(BulletMark, Bullet(e)) == 1
  {
    var a := [BulletMark] + TitleOpen;
    var b := a + e.title;
    var c := b + TitleClose;
    var d := c + e.daftarLink;
    ShortTextsUnmarked();
    TitleCloseUnmarked();
    OccurrencesAbsent(BulletMark, e.title);
    OccurrencesAbsent(BulletMark, e.daftarLink);
    OccurrencesAppend(BulletMark, [BulletMark], TitleOpen);
    OccurrencesAppend(BulletMark, a, e.title);
    OccurrencesAppend(BulletMark, b, TitleClose);
    OccurrencesAppend(BulletMark, c, e.daftarLink);
    OccurrencesAppend(BulletMark, d, LinkClose);
  }

  /** A list of entries whose text carries no bullet mark renders exactly one bullet per entry. */
  lemma {:induction false} BulletCount(es: seq<Entry>)
    requires forall e :: e in es ==> Unmarked(e)
    ensures Occurrences(BulletMark, BulletList(es)) == |es|
  {
    if es == [] {
    } else if |es| == 1 {
      BulletHasOneMark(es[0]);
    } else {
      assert Bullets(es)[1..] == Bullets(es[1..]);
      assert BulletList(es) == Bullet(es[0]) + Separator + BulletList(es[1..]);
      BulletHasOneMark(es[0]);
      BulletCount(es[1..]);
      OccurrencesAppend(BulletMark, Bullet(es[0]), Separator);
      OccurrencesAppend(BulletMark, Bullet(es[0]) + Separator, BulletList(es[1..]));
      SeparatorUnmarked();
    }
  }

  /**
   * The `display` command: a "no data" message when nothing is stored,
   * otherwise the stored entries as one bullet each, in order.
   */
  function Display(data: State): (r: Message)
    ensures data.Empty? ==> r == NoDataMessage
    ensures data.Loaded? ==>
              && r.Embed? && r.heading == AsOf("Info Loker", data.time) && r.description.Some?
              && |r.description.value| >= |ListingIntro|
              && r.description.value[..|ListingIntro|] == ListingIntro
              && r.description.value[|ListingIntro|..] == BulletList(data.entries)
  {
    match data
    case Empty => NoDataMessage
    case Loaded(t, es) => Embed(AsOf("Info Loker", t), Some(ListingIntro + BulletList(es)))
  }

  /** `display` of stored entries whose text carries no bullet mark shows exactly one bullet per entry. */
  lemma DisplayBulletCount(t: Timestamp, es: seq<Entry>)
    requires forall e :: e in es ==> Unmarked(e)
    ensures Occurrences(BulletMark, Display(Loaded(t, es)).description.value) == |es|
  {
    BulletCount(es);
    OccurrencesAppend(BulletMark, ListingIntro, BulletList(es));
    IntroUnmarked();
  }

  /**
   * The bullet list keeps the order of the entries: the bullet of entry `i`
   * (`Bullets(es)[i]`) sits at its offset in the joined text, after those of
   * entries `0` to `i - 1`.
   */
  lemma BulletListInOrder(es: seq<Entry>, i: nat)
    requires i < |es|
    ensures var bullet := Bullets(es)[i];
            var at := JoinOffset(Separator, Bullets(es), i);
            at + |bullet| <= |BulletList(es)| && BulletList(es)[at..at + |bullet|] == bullet
    ensures i + 1 < |es| ==>
              JoinOffset(Separator, Bullets(es), i + 1)
              == JoinOffset(Separator, Bullets(es), i) + |Bullets(es)[i]| + |Separator|
  {
    JoinPartAt(Separator, Bullets(es), i);
    if i + 1 < |es| {
      JoinOffsetNext(Separator, Bullets(es), i);
    }
  }

  /**
   * What the bot sends after an update: the command replies to every outcome;
   * the timer posts to the channel only when it fetched something, and just
   * logs otherwise. The channel lookup is left out.
   */
  function Reply(trigger: Trigger, outcome: Outcome, now: Timestamp): (r: Option<Message>)
    ensures r.None? <==> trigger.Timer? && (outcome.NoScraper? || outcome.FetchFailed?)
    ensures outcome.NewFound? ==>
              r == Some(Embed(AsOf("Lowongan baru unlocked!", now), Some(BulletList(outcome.found))))
    ensures outcome.FullListing? ==>
              r == Some(Embed(AsOf("Info Loker", now), Some(BulletList(outcome.listing))))
    ensures outcome.NoNew? ==> r == Some(Embed(AsOf("Update", now), Some(NoNewText)))
    ensures outcome.NoScraper? && trigger.Command? ==> r == Some(NoScraperNotice)
    ensures outcome.FetchFailed? && trigger.Command? ==> r == Some(FetchFailedNotice)
  {
    match outcome
    case NoScraper => if trigger.Command? then Some(NoScraperNotice) else None
    case FetchFailed => if trigger.Command? then Some(FetchFailedNotice) else None
    case NewFound(found) => Some(Embed(AsOf("Lowongan baru unlocked!", now), Some(BulletList(found))))
    case NoNew => Some(Embed(AsOf("Update", now), Some(NoNewText)))
    case FullListing(listing) => Some(Embed(AsOf("Info Loker", now), Some(BulletList(listing))))
  }

  lemma NoNewTextUnmarked()
    ensures Occurrences(BulletMark, NoNewText) == 0
  {
    OccurrencesAbsent(BulletMark, NoNewText);
  }

  /** The entries an outcome reports: the new ones, the full listing, or none. */
  function Reported(outcome: Outcome): seq<Entry> {
    match outcome
    case NewFound(found) => found
    case FullListing(listing) => listing
    case _ => []
  }

  /** A message about entries whose text carries no bullet mark has one bullet per reported entry. */
  lemma ReplyBulletCount(trigger: Trigger, outcome: Outcome, now: Timestamp)
    requires outcome.NewFound? || outcome.FullListing? || outcome.NoNew?
    requires forall e :: e in Reported(outcome) ==> Unmarked(e)
    ensures var r := Reply(trigger, outcome, now);
            && r.Some? && r.value.Embed? && r.value.description.Some?
            && Occurrences(BulletMark, r.value.description.value) == |Reported(outcome)|
  {
    if outcome.NoNew? {
      NoNewTextUnmarked();
    } else {
      BulletCount(Reported(outcome));
    }
  }

  /**
   * Whatever the trigger and whatever was stored, the message sent after an
   * update that fetched something carries one bullet per new entry: all of
   * them on a first fetch, none when nothing is new.
   */
  lemma ReplyBulletsAreNewEntries(trigger: Trigger, b: BotState, fetched: seq<Entry>, now: Timestamp)
    requires fetched != []
    requires forall e :: e in fetched ==> Unmarked(e)
    ensures var r := Reply(trigger, Update(trigger, b, true, fetched, now).outcome, now);
            && r.Some? && r.value.Embed? && r.value.description.Some?
            && Occurrences(BulletMark, r.value.description.value) == |NewEntries(b.data, fetched)|
  {
    var outcome := Update(trigger, b, true, fetched, now).outcome;
    if outcome.NoNew? {
      NothingNewIffCovered(Titles(b.data.entries), fetched);
    }
    assert Reported(outcome) == NewEntries(b.data, fetched);
    ReplyBulletCount(trigger, outcome, now);
  }

  /** After `clear`, `display` reports that there is no data. */
  lemma ClearedDisplaysNoData(b: BotState)
    ensures Display(Clear(b).data) == NoDataMessage
  {
  }

  /**
   * After a successful update, `display` lists exactly the fetched entries,
   * in fetch order, whatever was stored before.
   */
  lemma UpdateThenDisplay(trigger: Trigger, b: BotState, fetched: seq<Entry>, now: Timestamp)
    requires fetched != []
    ensures Display(Update(trigger, b, true, fetched, now).next.data).description
            == Some(ListingIntro + BulletList(fetched))
  {
  }
}
