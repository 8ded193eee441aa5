/** The statistics side of js/data-manager.js: counters held in memory,
    persisted to local storage, reloaded, reset and imported. Every operation
    maps the manager state (counters plus storage) before to the state after.
    The best-effort upload to the stats endpoint swallows its failures and
    leaves no trace here. */
module DataManager {
  import opened Wrappers
  import opened Text
  import opened Entities
  import opened LocalStorage

  /** `this.stats`. */
  datatype Stats = Stats(
    totalScans: int,
    totalVisits: int,
    totalMessages: int,
    successScans: int,
    session: SessionStats)

  const ZeroSession := SessionStats(0, 0, 0)
  const ZeroStats := Stats(0, 0, 0, 0, ZeroSession)

  /** The counters and local storage. */
  datatype Manager = Manager(stats: Stats, store: Store)

  /** `Object.values(this.storageKeys)`. */
  const StorageKeys: set<string> := {StatsKey, MessagesKey, ProfileKey, VisitsKey}

  /** The fields `saveStats` writes under the stats key. */
  function Saved(s: Stats): SavedStats {
    SavedStats(s.totalScans, s.successScans, s.session)
  }

  /** Storage holds the current counters: the saved fields under the stats
      key and the visit count under the visits key. */
  predicate Persisted(m: Manager) {
    && StatsKey in m.store && m.store[StatsKey] == StatsValue(Saved(m.stats))
    && VisitsKey in m.store && m.store[VisitsKey] == NumberValue(m.stats.totalVisits)
  }

  /** `saveStats()`. */
  function SaveStats(m: Manager): (r: Manager)
    ensures r.stats == m.stats
    ensures Persisted(r)
    ensures AgreeExcept(m.store, r.store, {StatsKey, VisitsKey})
  {
    Manager(m.stats, m.store[StatsKey := StatsValue(Saved(m.stats))][VisitsKey := NumberValue(m.stats.totalVisits)])
  }

  /** The reads inside `loadStats` that throw: an unparseable stats record or
      an unparseable message list. */
  predicate LoadFails(store: Store) {
    (StatsKey in store && !store[StatsKey].StatsValue?) || ReadPosts(store).Malformed?
  }

  /** `parseInt(visits) || 0` of the stored visit count. */
  function VisitsValue(v: Value): int {
    if v.NumberValue? then v.n else 0
  }

  /** `loadStats()`: the saved fields override the counters, the visits key
      sets the visit count, the stored list sets the message count; a key
      that is absent leaves its counter alone. A read that throws resets
      every counter to zero. */
  function LoadStats(m: Manager): (r: Manager)
    ensures r.store == m.store
    ensures LoadFails(m.store) ==> r.stats == ZeroStats
    ensures !LoadFails(m.store) ==>
      && (StatsKey in m.store ==>
            var sv := m.store[StatsKey].saved;
            r.stats.totalScans == sv.totalScans && r.stats.successScans == sv.successScans
            && r.stats.session == sv.session)
      && (StatsKey !in m.store ==>
            r.stats.totalScans == m.stats.totalScans && r.stats.successScans == m.stats.successScans
            && r.stats.session == m.stats.session)
      && r.stats.totalVisits == (if VisitsKey in m.store then VisitsValue(m.store[VisitsKey]) else m.stats.totalVisits)
      && r.stats.totalMessages == (if ReadPosts(m.store).Present? then |ReadPosts(m.store).value| else m.stats.totalMessages)
  {
    if LoadFails(m.store) then Manager(ZeroStats, m.store)
    else
      var s0 := m.stats;
      var s1 := if StatsKey in m.store then
          var sv := m.store[StatsKey].saved;
          s0.(totalScans := sv.totalScans, successScans := sv.successScans, session := sv.session)
        else s0;
      var s2 := if VisitsKey in m.store then s1.(totalVisits := VisitsValue(m.store[VisitsKey])) else s1;
      var s3 := match ReadPosts(m.store)
        case Present(ps) => s2.(totalMessages := |ps|)
        case _ => s2;
      Manager(s3, m.store)
  }

  /** Saving and then loading, into any counters, restores the scan counts,
      the session counters and the visit count; the message count is
      recomputed from the stored list (and kept when there is none). */
  lemma SaveLoadRoundTrip(m: Manager, other: Stats)
    requires !ReadPosts(m.store).Malformed?
    ensures var loaded := LoadStats(Manager(other, SaveStats(m).store)).stats;
      && loaded.totalScans == m.stats.totalScans
      && loaded.successScans == m.stats.successScans
      && loaded.session == m.stats.session
      && loaded.totalVisits == m.stats.totalVisits
      && loaded.totalMessages == (if ReadPosts(m.store).Present? then |ReadPosts(m.store).value| else other.totalMessages)
  {
    var saved := SaveStats(m).store;
    KeysDistinct();
    SamePosts(m.store, saved, {StatsKey, VisitsKey});
  }

  /** `incrementVisitCount()`. */
  function IncrementVisitCount(m: Manager): (r: Manager)
    ensures r.stats.totalVisits == m.stats.totalVisits + 1
    ensures r.stats.(totalVisits := m.stats.totalVisits) == m.stats
    ensures Persisted(r) && AgreeExcept(m.store, r.store, {StatsKey, VisitsKey})
  {
    SaveStats(Manager(m.stats.(totalVisits := m.stats.totalVisits + 1), m.store))
  }

  /** `incrementScanCount()`. */
  function IncrementScanCount(m: Manager): (r: Manager)
    ensures r.stats.totalScans == m.stats.totalScans + 1
    ensures r.stats.(totalScans := m.stats.totalScans) == m.stats
    ensures Persisted(r) && AgreeExcept(m.store, r.store, {StatsKey, VisitsKey})
  {
    SaveStats(Manager(m.stats.(totalScans := m.stats.totalScans + 1), m.store))
  }

  /** `incrementSuccessCount()`: one more successful scan, which is also one
      more scan; saved twice, to the same effect. */
  function IncrementSuccessCount(m: Manager): (r: Manager)
    ensures r.stats.successScans == m.stats.successScans + 1
    ensures r.stats.totalScans == m.stats.totalScans + 1
    ensures r.stats.(successScans := m.stats.successScans, totalScans := m.stats.totalScans) == m.stats
    ensures Persisted(r) && AgreeExcept(m.store, r.store, {StatsKey, VisitsKey})
  {
    var bumped := Manager(m.stats.(successScans := m.stats.successScans + 1), m.store);
    SaveStats(IncrementScanCount(bumped))
  }

  /** `updateMessageCount()`: with a readable stored list the message count
      becomes its length and is saved; a missing or unreadable list changes
      nothing. */
  function UpdateMessageCount(m: Manager): (r: Manager)
    ensures ReadPosts(m.store).Present? ==>
      && r.stats == m.stats.(totalMessages := |ReadPosts(m.store).value|)
      && Persisted(r) && AgreeExcept(m.store, r.store, {StatsKey, VisitsKey})
    ensures !ReadPosts(m.store).Present? ==> r == m
  {
    match ReadPosts(m.store)
    case Present(ps) => SaveStats(Manager(m.stats.(totalMessages := |ps|), m.store))
    case _ => m
  }

  /** The counters after `resetAllData`: everything zero but the current visit. */
  const ResetStats := ZeroStats.(totalVisits := 1)

  /** `resetAllData()`: only after both confirmations, the four storage keys
      are removed, the counters are reset, and `saveStats` writes the stats
      and visits keys back. */
  function ResetAllData(m: Manager, firstConfirm: bool, secondConfirm: bool): (r: Manager)
    ensures !(firstConfirm && secondConfirm) ==> r == m
    ensures firstConfirm && secondConfirm ==>
      && r.stats == ResetStats
      && MessagesKey !in r.store && ProfileKey !in r.store
      && Persisted(r)
      && AgreeExcept(m.store, r.store, StorageKeys)
  {
    if firstConfirm && secondConfirm then SaveStats(Manager(ResetStats, m.store - StorageKeys))
    else m
  }

  /** A reset survives a page reload: loading fresh counters from the reset
      storage gives back exactly the reset counters. */
  lemma ResetThenLoad(m: Manager)
    ensures var r := ResetAllData(m, true, true);
      LoadStats(Manager(ZeroStats, r.store)).stats == ResetStats
  {
    var r := ResetAllData(m, true, true);
    KeysDistinct();
    assert ReadPosts(r.store) == Absent;
  }

  /** The fields of an imported `stats` object; a missing field is `None`. */
  datatype StatsPatch = StatsPatch(
    totalScans: Option<int>,
    totalVisits: Option<int>,
    totalMessages: Option<int>,
    successScans: Option<int>,
    session: Option<SessionStats>)

  /** A parsed import file. An empty `version` is a missing one. */
  datatype ImportDoc = ImportDoc(
    version: string,
    stats: Option<StatsPatch>,
    messages: Option<seq<Post>>,
    userProfile: Option<Profile>)

  datatype ImportOutcome = ParseError | InvalidFormat | Declined | Imported | ReportedFailure

  datatype ImportResult = ImportResult(manager: Manager, outcome: ImportOutcome)

  /** `{ ...stats, ...patch }`: each field present in the patch wins. */
  function Merge(s: Stats, p: StatsPatch): (r: Stats)
    ensures r.totalScans == p.totalScans.GetOr(s.totalScans)
    ensures r.totalVisits == p.totalVisits.GetOr(s.totalVisits)
    ensures r.totalMessages == p.totalMessages.GetOr(s.totalMessages)
    ensures r.successScans == p.successScans.GetOr(s.successScans)
    ensures r.session == p.session.GetOr(s.session)
  {
    Stats(p.totalScans.GetOr(s.totalScans), p.totalVisits.GetOr(s.totalVisits),
          p.totalMessages.GetOr(s.totalMessages), p.successScans.GetOr(s.successScans),
          p.session.GetOr(s.session))
  }

  /** The writes of a confirmed import: merged counters, the imported message
      list and profile when present, then `saveStats`. */
  function ApplyImport(m: Manager, doc: ImportDoc): (r: Manager)
    requires doc.stats.Some?
    ensures r.stats == Merge(m.stats, doc.stats.value)
    ensures Persisted(r)
    ensures doc.messages.Some? ==> ReadPosts(r.store) == Present(doc.messages.value)
    ensures doc.messages.None? ==> ReadPosts(r.store) == ReadPosts(m.store)
    ensures doc.userProfile.Some? ==> ReadProfile(r.store) == Present(doc.userProfile.value)
    ensures doc.userProfile.None? ==> ReadProfile(r.store) == ReadProfile(m.store)
    ensures AgreeExcept(m.store, r.store, StorageKeys)
  {
    KeysDistinct();
    var s1 := match doc.messages
      case Some(ps) => m.store[MessagesKey := PostsValue(ps)]
      case None => m.store;
    var s2 := match doc.userProfile
      case Some(p) => s1[ProfileKey := ProfileValue(p)]
      case None => s1;
    SaveStats(Manager(Merge(m.stats, doc.stats.value), s2))
  }

  /** The import as the source has it. With the guestbook on the page, the
      call `window.feedbackSystem.updateMessageCount()` names a method the
      guestbook does not have; it throws after every write has been made, and
      the catch reports the import as failed. */
  function ImportDataAsWritten(m: Manager, doc: Option<ImportDoc>, confirmed: bool, guestbookPresent: bool): (r: ImportResult)
    ensures doc.None? ==> r == ImportResult(m, ParseError)
    ensures doc.Some? && (doc.value.version == "" || doc.value.stats.None?) ==> r == ImportResult(m, InvalidFormat)
    ensures r.outcome == Declined ==> r.manager == m
    ensures r.outcome in {Imported, ReportedFailure} ==> r.manager == ApplyImport(m, doc.value)
    ensures doc.Some? && doc.value.version != "" && doc.value.stats.Some? ==>
      r.outcome == (if !confirmed then Declined else if guestbookPresent then ReportedFailure else Imported)
  {
    match doc
    case None => ImportResult(m, ParseError)
    case Some(d) =>
      if d.version == "" || d.stats.None? then ImportResult(m, InvalidFormat)
      else if !confirmed then ImportResult(m, Declined)
      else
        var applied := ApplyImport(m, d);
        ImportResult(applied, if guestbookPresent then ReportedFailure else Imported)
  }

  /** With the guestbook present, a valid, confirmed import writes the
      imported data and is nevertheless reported as a failure. */
  lemma ImportReportsFailureAfterWriting(m: Manager, d: ImportDoc)
    requires d.version != "" && d.stats.Some?
    ensures var r := ImportDataAsWritten(m, Some(d), true, true);
      && r.outcome == ReportedFailure
      && (d.messages.Some? ==> ReadPosts(r.manager.store) == Present(d.messages.value))
  {
  }

  /** The import as intended: after the writes the data manager refreshes
      its own message count, and the import is reported as done. */
  function ImportData(m: Manager, doc: Option<ImportDoc>, confirmed: bool, guestbookPresent: bool): (r: ImportResult)
    ensures doc.None? ==> r == ImportResult(m, ParseError)
    ensures doc.Some? && (doc.value.version == "" || doc.value.stats.None?) ==> r == ImportResult(m, InvalidFormat)
    ensures r.outcome == Imported <==> doc.Some? && doc.value.version != "" && doc.value.stats.Some? && confirmed
    ensures r.outcome != Imported ==> r.manager == m
    ensures r.outcome == Imported ==> Persisted(r.manager)
    ensures r.outcome == Imported && !guestbookPresent ==> r.manager == ApplyImport(m, doc.value)
    ensures r.outcome == Imported && guestbookPresent ==> r.manager == UpdateMessageCount(ApplyImport(m, doc.value))
  {
    match doc
    case None => ImportResult(m, ParseError)
    case Some(d) =>
      if d.version == "" || d.stats.None? then ImportResult(m, InvalidFormat)
      else if !confirmed then ImportResult(m, Declined)
      else
        var applied := ApplyImport(m, d);
        ImportResult(if guestbookPresent then UpdateMessageCount(applied) else applied, Imported)
  }

  /** After an intended import with the guestbook present, the message count
      matches the imported message list, and every imported counter other
      than the message count is in place. */
  lemma ImportedCountMatchesMessages(m: Manager, d: ImportDoc)
    requires d.version != "" && d.stats.Some? && d.messages.Some?
    ensures var r := ImportData(m, Some(d), true, true);
      && r.outcome == Imported
      && r.manager.stats.totalMessages == |d.messages.value|
      && r.manager.stats.(totalMessages := 0) == Merge(m.stats, d.stats.value).(totalMessages := 0)
  {
  }

  /** One `scanSuccess` event as the page wires it: both the data manager's
      own listener and the application's listener call `incrementSuccessCount`. */
  function OnScanSuccessAsWired(m: Manager): (r: Manager)
    ensures r.stats.successScans == m.stats.successScans + 2
    ensures r.stats.totalScans == m.stats.totalScans + 2
  {
    IncrementSuccessCount(IncrementSuccessCount(m))
  }

  /** One `scanSuccess` event counted once. */
  function OnScanSuccess(m: Manager): (r: Manager)
    ensures r.stats.successScans == m.stats.successScans + 1
    ensures r.stats.totalScans == m.stats.totalScans + 1
    ensures r.stats.totalVisits == m.stats.totalVisits && r.stats.totalMessages == m.stats.totalMessages
    ensures Persisted(r)
  {
    IncrementSuccessCount(m)
  }

  /** `formatNumber(n)`; the scaled text of the thousands and millions
      branches (a floating-point rendering) is not modelled, only its unit. */
  datatype Formatted = Plain(text: string) | Abbreviated(unit: char)

  function FormatNumber(n: int): (f: Formatted)
    ensures n < 1000 ==> f.Plain?
    ensures 0 <= n < 1000 ==>
      && AllDigits(f.text) && DecimalValue(f.text) == n
      && 1 <= |f.text| <= 3 && (|f.text| > 1 ==> f.text[0] != '0')
    ensures n < 0 ==> |f.text| >= 2 && f.text[0] == '-' && AllDigits(f.text[1..]) && DecimalValue(f.text[1..]) == -n
    ensures 1000 <= n < 1000000 ==> f == Abbreviated('K')
    ensures n >= 1000000 ==> f == Abbreviated('M')
  {
    if n >= 1000000 then Abbreviated('M')
    else if n >= 1000 then Abbreviated('K')
    else
      if 0 <= n then
        ShortNumeral(n);
        Plain(IntToDecimal(n))
      else Plain(IntToDecimal(n))
  }

  /** Numbers below a thousand print in at most three digits. */
  lemma ShortNumeral(n: nat)
    requires n < 1000
    ensures |NatToDecimal(n)| <= 3
  {
    if n >= 10 {
      assert NatToDecimal(n) == NatToDecimal(n / 10) + [DigitChar(n % 10)];
      if n / 10 >= 10 {
        assert NatToDecimal(n / 10) == NatToDecimal(n / 100) + [DigitChar((n / 10) % 10)];
      }
    }
  }
}
