/**
 * The URL history kept by `save_url` and read back by `load_urls` (main.py).
 *
 * The history is a JSON list of records `{url, added_on, usage_count}`.
 * Saving a URL bumps the usage count of the record with that URL, or adds a
 * fresh record with count 1 when there is none. A history that cannot be read
 * (missing file, malformed JSON) counts as empty.
 *
 * The loop at main.py:77-86 attaches its `else` to the `if` rather than to the
 * `for`, so it appends a record for every non-matching entry it passes.
 * `RecordUse`/`Recorded` model the evidently intended for-else loop, which
 * the rest of the model uses. `RecordUseAsWritten`/`RecordedAsWritten` keep
 * the misplaced `else` but, like the rest of the model, read the `data` that
 * line 77 iterates as the loaded history `file` that line 82 appends to; the
 * as-written loop then iterates the list it appends to, and goes on to visit
 * the records it appended. The lemmas at the end of the module compare the
 * two loops.
 */
module UrlHistory {

  /** One entry of the history: the URL, the day it was first saved, how often it was used. */
  datatype UrlRecord = UrlRecord(url: string, addedOn: string, usageCount: int)

  /** The outcome of reading the history file; JSON parsing itself is not modelled. */
  datatype ReadOutcome = Parsed(records: seq<UrlRecord>) | FileNotFound | JsonDecodeError

  /** The record with one more use. */
  function Bumped(r: UrlRecord): (b: UrlRecord)
    ensures b.url == r.url && b.addedOn == r.addedOn && b.usageCount == r.usageCount + 1
  {
    r.(usageCount := r.usageCount + 1)
  }

  /** The position of the first record whose URL equals `url` exactly, or `|records|` if none does. */
  function IndexOfUrl(records: seq<UrlRecord>, url: string): (i: nat)
    ensures i <= |records|
    ensures i < |records| ==> records[i].url == url
    ensures forall j :: 0 <= j < i ==> records[j].url != url
  {
    if records == [] then 0
    else if records[0].url == url then 0
    else 1 + IndexOfUrl(records[1..], url)
  }

  /**
   * The history after one use of `url` on day `today`, as the for-else loop
   * intends it: the first record with that URL gets one more use; when there
   * is none, one fresh record is appended.
   */
  function Recorded(records: seq<UrlRecord>, url: string, today: string): seq<UrlRecord>
  {
    var k := IndexOfUrl(records, url);
    if k < |records| then records[k := Bumped(records[k])]
    else records + [UrlRecord(url, today, 1)]
  }

  /**
   * The record-update loop with its `else` on the `for`: scan for the URL,
   * bump the first match and stop; append once if the scan found nothing.
   */
  method RecordUse(records: seq<UrlRecord>, url: string, today: string) returns (updated: seq<UrlRecord>)
    ensures updated == Recorded(records, url, today)
  {
    updated := records;
    var found := false;
    var i := 0;
    while i < |updated|
      invariant 0 <= i <= |records|
      invariant !found && updated == records
      invariant forall j :: 0 <= j < i ==> records[j].url != url
    {
      if updated[i].url == url {
        updated := updated[i := Bumped(updated[i])];
        found := true;
        break;
      }
      i := i + 1;
    }
    if !found {
      updated := updated + [UrlRecord(url, today, 1)];
    }
  }

  /** `m` fresh records for `url`, as the misplaced `else` appends them. */
  function Copies(url: string, today: string, m: nat): (c: seq<UrlRecord>)
    ensures |c| == m
    ensures forall j :: 0 <= j < m ==> c[j] == UrlRecord(url, today, 1)
  {
    seq(m, _ => UrlRecord(url, today, 1))
  }

  /**
   * The history after the loop as written, with line 77's `data` read as the
   * loaded history. Passing a non-matching record appends a fresh one, and
   * Python's list iterator goes on to visit the appended records. So a match
   * at position `k` bumps it after `k` fresh records were appended; an absent
   * URL appends one record per original entry, and the first of them then
   * matches and is bumped to 2; an empty history is left empty.
   */
  function RecordedAsWritten(records: seq<UrlRecord>, url: string, today: string): seq<UrlRecord>
  {
    var k := IndexOfUrl(records, url);
    if k < |records| then records[k := Bumped(records[k])] + Copies(url, today, k)
    else if records == [] then []
    else records + [UrlRecord(url, today, 2)] + Copies(url, today, |records| - 1)
  }

  /**
   * The record-update loop as written, with line 77's `data` read as the
   * loaded history: the `else` belongs to the `if`, so each non-matching
   * entry appends a fresh record to the list being iterated.
   */
  method RecordUseAsWritten(records: seq<UrlRecord>, url: string, today: string) returns (updated: seq<UrlRecord>)
    ensures updated == RecordedAsWritten(records, url, today)
  {
    updated := records;
    var i := 0;
    while i < |updated|
      invariant i <= |records|
      invariant i <= IndexOfUrl(records, url)
      invariant updated == records + Copies(url, today, i)
      decreases |records| + 1 - i
    {
      if updated[i].url == url {
        updated := updated[i := Bumped(updated[i])];
        assert i == |records| ==> updated == records + [UrlRecord(url, today, 2)] + Copies(url, today, i - 1);
        assert i < |records| ==> updated == records[i := Bumped(records[i])] + Copies(url, today, i);
        break;
      } else {
        assert i < |records|;
        updated := updated + [UrlRecord(url, today, 1)];
        assert Copies(url, today, i) + [UrlRecord(url, today, 1)] == Copies(url, today, i + 1);
      }
      i := i + 1;
    }
  }

  /** The read policy of `save_url` and `load_urls`: an unreadable history is an empty one. */
  function LoadOrEmpty(read: ReadOutcome): seq<UrlRecord>
  {
    match read
    case Parsed(records) => records
    case FileNotFound => []
    case JsonDecodeError => []
  }

  /**
   * `save_url` with the evident intent: read the history (or start empty),
   * record one use, and return what is written back. The source's line 89
   * dumps the request-body `data` instead; this method returns the updated
   * history `file`, which is what line 89 evidently means to write.
   */
  method SaveUrl(read: ReadOutcome, url: string, today: string) returns (written: seq<UrlRecord>)
    ensures written == Recorded(LoadOrEmpty(read), url, today)
    ensures !read.Parsed? ==> written == [UrlRecord(url, today, 1)]
  {
    var history := LoadOrEmpty(read);
    written := RecordUse(history, url, today);
  }

  /** A failed read, whatever the reason, loads as the empty history; a parsed one loads unchanged. */
  lemma LoadOrEmptyPolicy(read: ReadOutcome)
    ensures LoadOrEmpty(read) == [] <==> !read.Parsed? || read.records == []
    ensures read.Parsed? ==> LoadOrEmpty(read) == read.records
  {
  }

  // ---------------------------------------------------------------------
  // What one recorded use does
  // ---------------------------------------------------------------------

  /**
   * A URL already present: the first record with that URL, and only it, gets
   * exactly one more use; its URL and date and all other records stay as they
   * were, and the history keeps its length.
   */
  lemma RecordedOnPresent(records: seq<UrlRecord>, url: string, today: string, k: nat)
    requires k < |records| && records[k].url == url
    requires forall j :: 0 <= j < k ==> records[j].url != url
    ensures var r := Recorded(records, url, today);
      |r| == |records| &&
      r[k].url == url && r[k].addedOn == records[k].addedOn &&
      r[k].usageCount == records[k].usageCount + 1 &&
      forall j :: 0 <= j < |records| && j != k ==> r[j] == records[j]
  {
  }

  /** An absent URL: exactly one record is appended, with that URL, the given day and one use. */
  lemma RecordedOnAbsent(records: seq<UrlRecord>, url: string, today: string)
    requires forall j :: 0 <= j < |records| ==> records[j].url != url
    ensures Recorded(records, url, today) == records + [UrlRecord(url, today, 1)]
  {
  }

  /** A history whose URLs are pairwise distinct and whose records were each used at least once. */
  predicate WellFormed(records: seq<UrlRecord>)
  {
    (forall i, j :: 0 <= i < j < |records| ==> records[i].url != records[j].url) &&
    (forall i :: 0 <= i < |records| ==> records[i].usageCount >= 1)
  }

  /** Recording a use keeps the URLs distinct and every count at least one. */
  lemma RecordedKeepsWellFormed(records: seq<UrlRecord>, url: string, today: string)
    requires WellFormed(records)
    ensures WellFormed(Recorded(records, url, today))
  {
    var k := IndexOfUrl(records, url);
    var r := Recorded(records, url, today);
    if k < |records| {
      assert forall j :: 0 <= j < |r| ==> r[j].url == records[j].url;
    } else {
      assert forall j :: 0 <= j < |records| ==> r[j] == records[j] && records[j].url != url;
    }
  }

  /** The total recorded use of `url` in the history. */
  function UsageOf(records: seq<UrlRecord>, url: string): int
  {
    if records == [] then 0
    else (if records[0].url == url then records[0].usageCount else 0) + UsageOf(records[1..], url)
  }

  /** Use counts add up over a concatenation. */
  lemma {:induction false} UsageOfConcat(a: seq<UrlRecord>, b: seq<UrlRecord>, url: string)
    ensures UsageOf(a + b, url) == UsageOf(a, url) + UsageOf(b, url)
  {
    if a == [] {
      assert a + b == b;
    } else {
      assert (a + b)[0] == a[0];
      assert (a + b)[1..] == a[1..] + b;
      UsageOfConcat(a[1..], b, url);
    }
  }

  /** Replacing a record by one with the same URL changes that URL's total by the change in count. */
  lemma {:induction false} UsageOfUpdate(records: seq<UrlRecord>, k: nat, r: UrlRecord, url: string)
    requires k < |records| && r.url == records[k].url
    ensures UsageOf(records[k := r], url) ==
      UsageOf(records, url) + (if r.url == url then r.usageCount - records[k].usageCount else 0)
  {
    if k > 0 {
      UsageOfUpdate(records[1..], k - 1, r, url);
      assert records[k := r][1..] == records[1..][k - 1 := r];
    }
  }

  /** One recorded use of `url` adds exactly one use of `url` and changes no other URL's count. */
  lemma RecordedCountsOneUse(records: seq<UrlRecord>, url: string, today: string, other: string)
    ensures UsageOf(Recorded(records, url, today), other) ==
      UsageOf(records, other) + (if other == url then 1 else 0)
  {
    var k := IndexOfUrl(records, url);
    if k < |records| {
      UsageOfUpdate(records, k, Bumped(records[k]), other);
    } else {
      UsageOfConcat(records, [UrlRecord(url, today, 1)], other);
    }
  }

  /** A use of the history: a URL saved on a day. */
  datatype Use = Use(url: string, day: string)

  /** The history after saving each use in turn. */
  function Replay(records: seq<UrlRecord>, uses: seq<Use>): seq<UrlRecord>
    decreases |uses|
  {
    if uses == [] then records
    else Replay(Recorded(records, uses[0].url, uses[0].day), uses[1..])
  }

  /** How many of the uses saved `url`. */
  function Occurrences(uses: seq<Use>, url: string): nat
  {
    if uses == [] then 0
    else (if uses[0].url == url then 1 else 0) + Occurrences(uses[1..], url)
  }

  /** Starting from any history, replaying uses adds to each URL's count the number of times it was saved. */
  lemma {:induction false} ReplayCountsUses(records: seq<UrlRecord>, uses: seq<Use>, url: string)
    ensures UsageOf(Replay(records, uses), url) == UsageOf(records, url) + Occurrences(uses, url)
    decreases |uses|
  {
    if uses != [] {
      RecordedCountsOneUse(records, uses[0].url, uses[0].day, url);
      ReplayCountsUses(Recorded(records, uses[0].url, uses[0].day), uses[1..], url);
    }
  }

  /** Replaying uses on a well-formed history keeps it well-formed. */
  lemma {:induction false} ReplayKeepsWellFormed(records: seq<UrlRecord>, uses: seq<Use>)
    requires WellFormed(records)
    ensures WellFormed(Replay(records, uses))
    decreases |uses|
  {
    if uses != [] {
      RecordedKeepsWellFormed(records, uses[0].url, uses[0].day);
      ReplayKeepsWellFormed(Recorded(records, uses[0].url, uses[0].day), uses[1..]);
    }
  }

  /** After a failed read, saving a URL writes a history of exactly that URL, used once. */
  lemma FirstSaveAfterFailedLoad(read: ReadOutcome, url: string, today: string)
    requires !read.Parsed?
    ensures Recorded(LoadOrEmpty(read), url, today) == [UrlRecord(url, today, 1)]
    ensures UsageOf(Recorded(LoadOrEmpty(read), url, today), url) == 1
  {
    RecordedCountsOneUse([], url, today, url);
  }

  // ---------------------------------------------------------------------
  // The loop as written against the loop as intended
  // ---------------------------------------------------------------------

  /**
   * The two loops agree exactly when the very first record already has the
   * URL: any non-matching record before the match, and any absent URL,
   * makes the code as written diverge.
   */
  lemma AsWrittenAgreesExactly(records: seq<UrlRecord>, url: string, today: string)
    ensures RecordedAsWritten(records, url, today) == Recorded(records, url, today) <==>
      |records| > 0 && records[0].url == url
  {
    var k := IndexOfUrl(records, url);
    var w := RecordedAsWritten(records, url, today);
    var r := Recorded(records, url, today);
    if k < |records| && k > 0 {
      assert |w| == |r| + k;
    } else if k == |records| && |records| > 1 {
      assert |w| == 2 * |records| != |r|;
    } else if k == |records| && |records| == 1 {
      assert w[1].usageCount == 2 != r[1].usageCount;
    } else if k == |records| {
      assert |w| == 0 < |r|;
    }
  }

  /**
   * On a well-formed history with at least two records, saving a new URL as
   * written leaves duplicate records for that URL, and credits it with one
   * use per original record plus one instead of a single use.
   */
  lemma AsWrittenBreaksUniqueness(records: seq<UrlRecord>, url: string, today: string)
    requires WellFormed(records) && |records| >= 2
    requires forall j :: 0 <= j < |records| ==> records[j].url != url
    ensures !WellFormed(RecordedAsWritten(records, url, today))
    ensures UsageOf(RecordedAsWritten(records, url, today), url) == |records| + 1
  {
    var n := |records|;
    var w := RecordedAsWritten(records, url, today);
    assert w[n].url == w[n + 1].url;
    UsageOfConcat(records + [UrlRecord(url, today, 2)], Copies(url, today, n - 1), url);
    UsageOfConcat(records, [UrlRecord(url, today, 2)], url);
    UsageOfAbsent(records, url);
    UsageOfCopies(url, today, n - 1);
  }

  /** A URL no record has is used zero times. */
  lemma {:induction false} UsageOfAbsent(records: seq<UrlRecord>, url: string)
    requires forall j :: 0 <= j < |records| ==> records[j].url != url
    ensures UsageOf(records, url) == 0
  {
    if records != [] {
      UsageOfAbsent(records[1..], url);
    }
  }

  /** `m` fresh copies account for `m` uses. */
  lemma {:induction false} UsageOfCopies(url: string, today: string, m: nat)
    ensures UsageOf(Copies(url, today, m), url) == m
  {
    if m > 0 {
      UsageOfCopies(url, today, m - 1);
      assert Copies(url, today, m) == [UrlRecord(url, today, 1)] + Copies(url, today, m - 1);
    }
  }

  /** As written, saving into an empty history saves nothing: the first use of any URL is lost. */
  lemma AsWrittenLosesFirstUse(url: string, today: string)
    ensures UsageOf(RecordedAsWritten([], url, today), url) == 0
    ensures UsageOf(Recorded([], url, today), url) == 1
  {
    RecordedCountsOneUse([], url, today, url);
  }
}
