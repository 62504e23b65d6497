/** The browser-local store behind the assistant: a preferences record, the
    active conversation history (newest first, at most 50 items) and the archive
    of past conversations (newest first, at most 10). The three storage keys are
    the three fields of `Store`; a key that is absent, or whose text does not
    parse as JSON, reads as `None` or the empty list. Fresh ids
    (`crypto.randomUUID`) and times (`Date.now`) are parameters. */
module LocalStorage {
  import opened Wrappers
  import Seqs

  datatype Language = En | Hi
  datatype Gender = Neutral | Male | Female
  datatype Theme = Light | Dark

  datatype Preferences = Preferences(name: string, language: Language, gender: Gender, theme: Theme)

  /** The fields present in the stored preferences blob. */
  datatype StoredPreferences = StoredPreferences(
    name: Option<string>, language: Option<Language>, gender: Option<Gender>, theme: Option<Theme>)

  const DefaultPreferences: Preferences := Preferences("", En, Neutral, Dark)

  /** One exchange; `response == None` marks a placeholder still waiting for its answer. */
  datatype HistoryItem = HistoryItem(id: string, query: string, response: Option<string>, timestamp: int)

  datatype Conversation = Conversation(id: string, title: string, items: seq<HistoryItem>, timestamp: int)

  datatype Store = Store(prefs: Option<StoredPreferences>, history: seq<HistoryItem>, conversations: seq<Conversation>)

  const EmptyStore: Store := Store(None, [], [])

  const MaxHistory: nat := 50
  const MaxConversations: nat := 10
  const TitleLength: nat := 30

  // ---------------------------------------------------------------- preferences

  /** `getStoredPreferences`: the stored fields merged over the defaults. */
  function GetStoredPreferences(s: Store): (p: Preferences)
    ensures s.prefs.None? ==> p == Preferences("", En, Neutral, Dark)
    ensures s.prefs.Some? ==>
      && (s.prefs.value.name.Some? ==> p.name == s.prefs.value.name.value)
      && (s.prefs.value.name.None? ==> p.name == "")
      && (s.prefs.value.language.Some? ==> p.language == s.prefs.value.language.value)
      && (s.prefs.value.language.None? ==> p.language == En)
      && (s.prefs.value.gender.Some? ==> p.gender == s.prefs.value.gender.value)
      && (s.prefs.value.gender.None? ==> p.gender == Neutral)
      && (s.prefs.value.theme.Some? ==> p.theme == s.prefs.value.theme.value)
      && (s.prefs.value.theme.None? ==> p.theme == Dark)
  {
    match s.prefs
    case None => DefaultPreferences
    case Some(sp) =>
      Preferences(
        sp.name.GetOr(DefaultPreferences.name),
        sp.language.GetOr(DefaultPreferences.language),
        sp.gender.GetOr(DefaultPreferences.gender),
        sp.theme.GetOr(DefaultPreferences.theme))
  }

  /** The blob `JSON.stringify` writes for a full preferences record. */
  function Stored(p: Preferences): StoredPreferences {
    StoredPreferences(Some(p.name), Some(p.language), Some(p.gender), Some(p.theme))
  }

  /** The `key`/`value` argument pair of `updatePreference`. */
  datatype PrefUpdate =
    | SetName(name: string)
    | SetLanguage(language: Language)
    | SetGender(gender: Gender)
    | SetTheme(theme: Theme)

  /** `updatePreference`: the current preferences with one field replaced, both
      stored and returned. */
  function UpdatePreference(s: Store, u: PrefUpdate): (r: (Store, Preferences))
    ensures var cur := GetStoredPreferences(s);
      && r.1.name == (if u.SetName? then u.name else cur.name)
      && r.1.language == (if u.SetLanguage? then u.language else cur.language)
      && r.1.gender == (if u.SetGender? then u.gender else cur.gender)
      && r.1.theme == (if u.SetTheme? then u.theme else cur.theme)
    ensures GetStoredPreferences(r.0) == r.1
    ensures r.0.history == s.history && r.0.conversations == s.conversations
  {
    var cur := GetStoredPreferences(s);
    var p := match u
      case SetName(n) => cur.(name := n)
      case SetLanguage(l) => cur.(language := l)
      case SetGender(g) => cur.(gender := g)
      case SetTheme(t) => cur.(theme := t);
    (s.(prefs := Some(Stored(p))), p)
  }

  /** `clearPreferences`: the stored blob is removed, so every field reads as
      its default again; the history and the archive are untouched. */
  function ClearPreferences(s: Store): (r: Store)
    ensures GetStoredPreferences(r) == Preferences("", En, Neutral, Dark)
    ensures r.history == s.history && r.conversations == s.conversations
  {
    s.(prefs := None)
  }

  // ---------------------------------------------------------------- history

  function WithoutId(h: seq<HistoryItem>, id: string): seq<HistoryItem> {
    Seqs.Filter(h, (x: HistoryItem) => x.id != id)
  }

  /** Dropping an id that no item carries keeps the history as it is. */
  lemma {:induction false} WithoutAbsentId(h: seq<HistoryItem>, id: string)
    requires forall i :: 0 <= i < |h| ==> h[i].id != id
    ensures WithoutId(h, id) == h
    decreases |h|
  {
    if |h| > 0 {
      WithoutAbsentId(h[1..], id);
    }
  }

  /** `id || crypto.randomUUID()`: an empty id is falsy and counts as not supplied. */
  predicate IdSupplied(id: Option<string>) {
    id.Some? && id.value != ""
  }

  /** `addHistoryItem`: prepends a new item, first dropping any item with the
      supplied id, and keeps the 50 newest. */
  function AddHistoryItem(s: Store, query: string, response: Option<string>, id: Option<string>,
                          freshId: string, now: int): (r: Store)
    ensures 0 < |r.history| <= MaxHistory
    ensures r.history[0] == HistoryItem(if IdSupplied(id) then id.value else freshId, query, response, now)
    ensures Seqs.IsSubseq(r.history[1..], s.history)
    ensures IdSupplied(id) ==> forall j :: 0 < j < |r.history| ==> r.history[j].id != id.value
    ensures IdSupplied(id) && |s.history| < MaxHistory ==>
      forall i :: 0 <= i < |s.history| && s.history[i].id != id.value ==> s.history[i] in r.history[1..]
    ensures !IdSupplied(id) ==> r.history[1..] == Seqs.Take(s.history, MaxHistory - 1)
    ensures IdSupplied(id) ==> r.history[1..] == Seqs.Take(WithoutId(s.history, id.value), MaxHistory - 1)
    ensures r.prefs == s.prefs && r.conversations == s.conversations
  {
    var item := HistoryItem(if IdSupplied(id) then id.value else freshId, query, response, now);
    var kept := if IdSupplied(id) then WithoutId(s.history, id.value) else s.history;
    var h := Seqs.Take([item] + kept, MaxHistory);
    var tail := Seqs.Take(kept, MaxHistory - 1);
    assert h[1..] == tail;
    assert Seqs.IsSubseq(tail, s.history) by {
      if !IdSupplied(id) { Seqs.SubseqRefl(s.history); }
      Seqs.SubseqPrefix(kept, s.history, |tail|);
      assert kept[..|tail|] == tail;
    }
    s.(history := h)
  }

  /** The response of every item with the given id replaced; all else kept. */
  function PatchResponse(h: seq<HistoryItem>, id: string, response: string): (r: seq<HistoryItem>)
    ensures |r| == |h|
    ensures forall i :: 0 <= i < |h| ==>
      && r[i].id == h[i].id && r[i].query == h[i].query && r[i].timestamp == h[i].timestamp
      && (h[i].id == id ==> r[i].response == Some(response))
      && (h[i].id != id ==> r[i] == h[i])
    ensures (forall i :: 0 <= i < |h| ==> h[i].id != id) ==> r == h
  {
    if |h| == 0 then []
    else
      var head := if h[0].id == id then h[0].(response := Some(response)) else h[0];
      [head] + PatchResponse(h[1..], id, response)
  }

  /** `updateHistoryItemResponse`. */
  function UpdateHistoryItemResponse(s: Store, id: string, response: string): (r: Store)
    ensures r.history == PatchResponse(s.history, id, response)
    ensures r.prefs == s.prefs && r.conversations == s.conversations
  {
    s.(history := PatchResponse(s.history, id, response))
  }

  /** Patching the same id twice keeps only the second response. */
  lemma PatchTwice(h: seq<HistoryItem>, id: string, first: string, second: string)
    ensures PatchResponse(PatchResponse(h, id, first), id, second) == PatchResponse(h, id, second)
  {
  }

  /** `clearHistory`. */
  function ClearHistory(s: Store): (r: Store)
    ensures r.history == []
    ensures r.prefs == s.prefs && r.conversations == s.conversations
  {
    s.(history := [])
  }

  // ---------------------------------------------------------------- archive

  /** The title of an archived conversation: the first 30 characters of the
      opening query, followed by "..." when the query was longer. */
  function ArchiveTitle(query: string): (t: string)
    ensures |t| <= TitleLength + 3
    ensures |query| <= TitleLength ==> t == query
    ensures |query| > TitleLength ==> |t| == TitleLength + 3 && t[..TitleLength] == query[..TitleLength]
    ensures |query| > TitleLength ==> t[TitleLength..] == "..."
  {
    Seqs.Take(query, TitleLength) + (if |query| > TitleLength then "..." else "")
  }

  /** `archiveCurrentConversation`: a non-empty history becomes the newest
      archived conversation, titled after its oldest (last) query; the archive
      keeps its 10 newest entries; the history always ends empty. */
  function ArchiveCurrentConversation(s: Store, freshId: string, now: int): (r: Store)
    ensures r.history == []
    ensures r.prefs == s.prefs
    ensures |s.history| == 0 ==> r.conversations == s.conversations
    ensures |s.history| > 0 ==>
      && 0 < |r.conversations| <= MaxConversations
      && r.conversations[0].id == freshId
      && r.conversations[0].items == s.history
      && r.conversations[0].title == ArchiveTitle(s.history[|s.history| - 1].query)
      && r.conversations[0].timestamp == now
      && r.conversations[1..] == Seqs.Take(s.conversations, MaxConversations - 1)
  {
    if |s.history| > 0 then
      var title := ArchiveTitle(s.history[|s.history| - 1].query);
      var c := Conversation(freshId, title, s.history, now);
      var cs := Seqs.Take([c] + s.conversations, MaxConversations);
      assert cs[1..] == Seqs.Take(s.conversations, MaxConversations - 1);
      s.(conversations := cs, history := [])
    else
      s.(history := [])
  }

  /** `deleteConversation`: every conversation with the id goes, the rest stay in order. */
  function DeleteConversation(s: Store, id: string): (r: Store)
    ensures forall i :: 0 <= i < |r.conversations| ==> r.conversations[i].id != id
    ensures forall i :: 0 <= i < |s.conversations| && s.conversations[i].id != id ==>
      s.conversations[i] in r.conversations
    ensures Seqs.IsSubseq(r.conversations, s.conversations)
    ensures forall c {:trigger multiset(r.conversations)[c]} ::
      multiset(r.conversations)[c] == (if c.id == id then 0 else multiset(s.conversations)[c])
    ensures (forall i :: 0 <= i < |s.conversations| ==> s.conversations[i].id != id) ==> r == s
    ensures r.prefs == s.prefs && r.history == s.history
  {
    var cs := Seqs.Filter(s.conversations, (c: Conversation) => c.id != id);
    Seqs.FilterCounts(s.conversations, (c: Conversation) => c.id != id);
    assert (forall i :: 0 <= i < |s.conversations| ==> s.conversations[i].id != id) ==> cs == s.conversations by {
      if forall i :: 0 <= i < |s.conversations| ==> s.conversations[i].id != id {
        KeepAllIsIdentity(s.conversations, id);
      }
    }
    s.(conversations := cs)
  }

  lemma {:induction false} KeepAllIsIdentity(cs: seq<Conversation>, id: string)
    requires forall i :: 0 <= i < |cs| ==> cs[i].id != id
    ensures Seqs.Filter(cs, (c: Conversation) => c.id != id) == cs
    decreases |cs|
  {
    if |cs| > 0 {
      KeepAllIsIdentity(cs[1..], id);
    }
  }

  /** `conversations.find(c => c.id === id)`: the position of the first match. */
  function FindConversation(cs: seq<Conversation>, id: string): (r: Option<nat>)
    ensures r.None? <==> forall i :: 0 <= i < |cs| ==> cs[i].id != id
    ensures r.Some? ==> r.value < |cs| && cs[r.value].id == id
    ensures r.Some? ==> forall j :: 0 <= j < r.value ==> cs[j].id != id
  {
    if |cs| == 0 then None
    else if cs[0].id == id then Some(0)
    else
      match FindConversation(cs[1..], id)
      case None => None
      case Some(k) => Some(k + 1)
  }

  /** `restoreConversation`: the first archived conversation with the id
      replaces the history and its items are returned; an unknown id returns
      the empty list and changes nothing. */
  function RestoreConversation(s: Store, id: string): (r: (Store, seq<HistoryItem>))
    ensures r.0.prefs == s.prefs && r.0.conversations == s.conversations
    ensures r.0.history == r.1 || r.0 == s
    ensures (forall i :: 0 <= i < |s.conversations| ==> s.conversations[i].id != id) ==>
      r.0 == s && r.1 == []
    ensures forall i | 0 <= i < |s.conversations| && s.conversations[i].id == id
      && (forall j :: 0 <= j < i ==> s.conversations[j].id != id) ::
        r.1 == s.conversations[i].items && r.0 == s.(history := s.conversations[i].items)
  {
    match FindConversation(s.conversations, id)
    case None => (s, [])
    case Some(i) => (s.(history := s.conversations[i].items), s.conversations[i].items)
  }

  /** `clearAllData`: all three keys removed. */
  function ClearAllData(s: Store): (r: Store)
    ensures GetStoredPreferences(r) == Preferences("", En, Neutral, Dark)
    ensures r.history == [] && r.conversations == []
  {
    EmptyStore
  }

  /** Archiving a non-empty history and restoring the new entry gives the
      original history back, whatever ids the archive already held. */
  lemma ArchiveThenRestore(s: Store, freshId: string, now: int)
    requires |s.history| > 0
    ensures var a := ArchiveCurrentConversation(s, freshId, now);
      RestoreConversation(a, freshId) == (a.(history := s.history), s.history)
  {
    var a := ArchiveCurrentConversation(s, freshId, now);
    assert a.conversations[0].id == freshId;
  }

  /** A deleted conversation can no longer be restored. */
  lemma DeleteThenRestore(s: Store, id: string)
    ensures var d := DeleteConversation(s, id);
      RestoreConversation(d, id) == (d, [])
  {
    var d := DeleteConversation(s, id);
    assert FindConversation(d.conversations, id).None?;
  }

  // ---------------------------------------------------------------- invariants

  /** Newest first: timestamps never increase along the list. */
  ghost predicate NewestFirst(h: seq<HistoryItem>) {
    forall i, j :: 0 <= i < j < |h| ==> h[i].timestamp >= h[j].timestamp
  }

  lemma {:induction false} SubseqNewestFirst(sub: seq<HistoryItem>, h: seq<HistoryItem>)
    requires Seqs.IsSubseq(sub, h)
    requires NewestFirst(h)
    ensures NewestFirst(sub)
    decreases |h|
  {
    if |sub| == 0 {
    } else if sub[0] == h[0] {
      SubseqNewestFirst(sub[1..], h[1..]);
      Seqs.SubseqMembers(sub[1..], h[1..]);
      forall j | 0 < j < |sub| ensures sub[0].timestamp >= sub[j].timestamp {
        assert sub[1..][j - 1] in h[1..];
      }
    } else {
      SubseqNewestFirst(sub, h[1..]);
    }
  }

  /** With a clock that does not run backwards, `addHistoryItem` keeps the
      history newest first. */
  lemma AddKeepsNewestFirst(s: Store, query: string, response: Option<string>, id: Option<string>,
                            freshId: string, now: int)
    requires NewestFirst(s.history)
    requires forall i :: 0 <= i < |s.history| ==> s.history[i].timestamp <= now
    ensures NewestFirst(AddHistoryItem(s, query, response, id, freshId, now).history)
  {
    var h := AddHistoryItem(s, query, response, id, freshId, now).history;
    var tail := h[1..];
    SubseqNewestFirst(tail, s.history);
    Seqs.SubseqMembers(tail, s.history);
    assert h[0].timestamp == now;
    forall j | 0 < j < |h| ensures h[0].timestamp >= h[j].timestamp {
      assert h[j] == tail[j - 1];
      assert tail[j - 1] in s.history;
      var k :| 0 <= k < |s.history| && s.history[k] == tail[j - 1];
    }
    forall i, j | 0 < i < j < |h| ensures h[i].timestamp >= h[j].timestamp {
      assert h[i] == tail[i - 1] && h[j] == tail[j - 1];
    }
  }

  /** The bounds every reachable store keeps. */
  ghost predicate Valid(s: Store) {
    && |s.history| <= MaxHistory
    && |s.conversations| <= MaxConversations
    && forall c :: c in s.conversations ==> 0 < |c.items| <= MaxHistory && |c.title| <= TitleLength + 3
  }

  /** The store operations, with their ids and times supplied. */
  datatype Op =
    | UpdatePref(u: PrefUpdate)
    | ClearPrefs
    | Add(query: string, placeholder: Option<string>, givenId: Option<string>, freshId: string, now: int)
    | Patch(id: string, response: string)
    | Clear
    | Archive(freshId: string, now: int)
    | Delete(id: string)
    | Restore(id: string)
    | ClearAll

  function Step(s: Store, op: Op): Store {
    match op
    case UpdatePref(u) => UpdatePreference(s, u).0
    case ClearPrefs => ClearPreferences(s)
    case Add(q, resp, id, newId, now) => AddHistoryItem(s, q, resp, id, newId, now)
    case Patch(id, resp) => UpdateHistoryItemResponse(s, id, resp)
    case Clear => ClearHistory(s)
    case Archive(newId, now) => ArchiveCurrentConversation(s, newId, now)
    case Delete(id) => DeleteConversation(s, id)
    case Restore(id) => RestoreConversation(s, id).0
    case ClearAll => ClearAllData(s)
  }

  function Run(s: Store, ops: seq<Op>): Store
    decreases |ops|
  {
    if |ops| == 0 then s else Run(Step(s, ops[0]), ops[1..])
  }

  /** Every single operation keeps the bounds. */
  lemma StepPreservesValid(s: Store, op: Op)
    requires Valid(s)
    ensures Valid(Step(s, op))
  {
    match op
    case Archive(newId, now) =>
      var r := Step(s, op);
      if |s.history| > 0 {
        forall c | c in r.conversations
          ensures 0 < |c.items| <= MaxHistory && |c.title| <= TitleLength + 3
        {
          if c != r.conversations[0] {
            var k :| 0 <= k < |r.conversations| && r.conversations[k] == c;
            assert c == r.conversations[1..][k - 1];
          }
        }
      }
    case Delete(id) =>
      var r := Step(s, op);
      Seqs.SubseqMembers(r.conversations, s.conversations);
    case Restore(id) =>
      var found := FindConversation(s.conversations, id);
      if found.Some? {
        assert s.conversations[found.value] in s.conversations;
      }
    case _ =>
  }

  /** Any sequence of operations from a valid store (such as the empty one)
      keeps the history at 50 items and the archive at 10 conversations. */
  lemma {:induction false} RunPreservesValid(s: Store, ops: seq<Op>)
    requires Valid(s)
    ensures Valid(Run(s, ops))
    decreases |ops|
  {
    if |ops| > 0 {
      StepPreservesValid(s, ops[0]);
      RunPreservesValid(Step(s, ops[0]), ops[1..]);
    }
  }
}
