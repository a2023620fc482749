/**
 The `MetaManager` state machine: the in-memory presence, its mirror in the
 browser's key-value storage, and the page's meta tags. Every operation is a
 pure transition from one page state to the next.
 */
module Manager {

  import opened Options
  import opened StatusTable
  import opened Describe
  import opened MetaTags

  /** `localStorage`, as a map from keys to string values. */
  type Storage = map<string, string>

  const StatusKey: string := "userStatus"
  const GameKey: string := "currentGame"
  const MusicKey: string := "currentMusic"

  datatype Page = Page(presence: Presence, storage: Storage, head: Head)

  /** `localStorage.getItem(key) || null`: a missing or empty entry reads as no activity. */
  function StoredActivity(storage: Storage, key: string): (r: Option<string>)
    ensures r.Some? <==> key in storage && storage[key] != ""
    ensures r.Some? ==> r.value == storage[key]
  {
    if key in storage && storage[key] != "" then Some(storage[key]) else None
  }

  /** `localStorage.getItem('userStatus') || 'idle'`; the stored value is not checked against the enumeration. */
  function StoredStatus(storage: Storage): (s: string)
    ensures StatusKey in storage && storage[StatusKey] != "" ==> s == storage[StatusKey]
    ensures !(StatusKey in storage && storage[StatusKey] != "") ==> s == Idle
    ensures s != ""
  {
    if StatusKey in storage && storage[StatusKey] != "" then storage[StatusKey] else Idle
  }

  /** The presence the constructor reads from storage. */
  function Load(storage: Storage): Presence {
    Presence(StoredStatus(storage), StoredActivity(storage, GameKey), StoredActivity(storage, MusicKey))
  }

  /** The tags show the description of the current presence. */
  predicate TagsCurrent(p: Page) {
    Shows(p.head, BuildDescription(p.presence))
  }

  /** Only the three description slots may differ between the two heads. */
  ghost predicate OtherTagsAlike(h1: Head, h2: Head) {
    forall a, v :: !IsDescriptionSlot(a, v) ==> Content(h1, a, v) == Content(h2, a, v)
  }

  /** `updateMetaTags` on a page. */
  function Refresh(p: Page): (r: Page)
    ensures r.presence == p.presence && r.storage == p.storage
    ensures TagsCurrent(r)
    ensures OtherTagsAlike(r.head, p.head)
  {
    p.(head := UpdateMetaTags(p.head, BuildDescription(p.presence)))
  }

  /** The constructor (widget construction aside): read the presence from storage, then write the tags. */
  function New(storage: Storage, head: Head): (p: Page)
    ensures p.presence == Load(storage)
    ensures p.storage == storage
    ensures TagsCurrent(p)
    ensures OtherTagsAlike(p.head, head)
  {
    Refresh(Page(Load(storage), storage, head))
  }

  /** The body of `setStatus` once the guard has passed: keep, store and show the status. */
  function ApplyStatus(p: Page, status: string): (r: Page)
    ensures r.presence == p.presence.(status := status)
    ensures StatusKey in r.storage && r.storage[StatusKey] == status
    ensures r.storage - {StatusKey} == p.storage - {StatusKey}
    ensures TagsCurrent(r)
    ensures OtherTagsAlike(r.head, p.head)
  {
    var storage := p.storage[StatusKey := status];
    assert storage - {StatusKey} == p.storage - {StatusKey};
    Refresh(p.(presence := p.presence.(status := status), storage := storage))
  }

  /** `setStatus`: a value outside the enumeration is ignored; a valid one is kept, stored and shown. */
  function SetStatus(p: Page, status: string): (r: Page)
    ensures !IsStatus(status) ==> r == p
    ensures IsStatus(status) ==> r.presence == p.presence.(status := status)
    ensures IsStatus(status) ==> StatusKey in r.storage && r.storage[StatusKey] == status
    ensures r.storage - {StatusKey} == p.storage - {StatusKey}
    ensures IsStatus(status) ==> TagsCurrent(r)
    ensures OtherTagsAlike(r.head, p.head)
  {
    if IsStatus(status) then ApplyStatus(p, status) else p
  }

  /** `setItem(key, value)` when the activity is truthy, `removeItem(key)` otherwise. */
  function StoreActivity(storage: Storage, key: string, activity: Option<string>): (s: Storage)
    ensures key in s <==> Truthy(activity)
    ensures Truthy(activity) ==> s[key] == activity.value
    ensures s - {key} == storage - {key}
  {
    if Truthy(activity) then storage[key := activity.value] else storage - {key}
  }

  /** `setCurrentGame`: the field takes the argument as given; storage holds it only when it is truthy. */
  function SetCurrentGame(p: Page, game: Option<string>): (r: Page)
    ensures r.presence == p.presence.(game := game)
    ensures GameKey in r.storage <==> Truthy(game)
    ensures Truthy(game) ==> r.storage[GameKey] == game.value
    ensures r.storage - {GameKey} == p.storage - {GameKey}
    ensures TagsCurrent(r)
    ensures OtherTagsAlike(r.head, p.head)
  {
    Refresh(p.(presence := p.presence.(game := game), storage := StoreActivity(p.storage, GameKey, game)))
  }

  /** `setCurrentMusic`: as `setCurrentGame`, for the music entry. */
  function SetCurrentMusic(p: Page, music: Option<string>): (r: Page)
    ensures r.presence == p.presence.(music := music)
    ensures MusicKey in r.storage <==> Truthy(music)
    ensures Truthy(music) ==> r.storage[MusicKey] == music.value
    ensures r.storage - {MusicKey} == p.storage - {MusicKey}
    ensures TagsCurrent(r)
    ensures OtherTagsAlike(r.head, p.head)
  {
    Refresh(p.(presence := p.presence.(music := music), storage := StoreActivity(p.storage, MusicKey, music)))
  }

  /** A click on the status widget's button: move to the next status and set it. */
  function Click(p: Page): (r: Page)
    ensures IsStatus(r.presence.status)
    ensures IsStatus(p.presence.status) ==> r.presence.status != p.presence.status
    ensures !IsStatus(p.presence.status) ==> r.presence.status == Online
    ensures StatusKey in r.storage && r.storage[StatusKey] == r.presence.status
    ensures r.presence.game == p.presence.game && r.presence.music == p.presence.music
    ensures r.storage - {StatusKey} == p.storage - {StatusKey}
    ensures TagsCurrent(r)
    ensures OtherTagsAlike(r.head, p.head)
  {
    NextStatusInEnumeration(p.presence.status);
    SetStatus(p, NextStatus(p.presence.status))
  }

  /** The presence with empty labels read as absent, which is how it looks after a store and a reload. */
  function Normalize(pr: Presence): Presence {
    pr.(game := if Truthy(pr.game) then pr.game else None,
        music := if Truthy(pr.music) then pr.music else None)
  }

  /** In-memory state and storage agree: reading storage back gives the (normalised) presence. */
  predicate Mirrored(p: Page) {
    Load(p.storage) == Normalize(p.presence)
  }

  /** The invariant every operation keeps: storage mirrors the presence and the tags show it. */
  predicate Consistent(p: Page) {
    Mirrored(p) && TagsCurrent(p)
  }

  /** Empty labels and absent labels describe alike. */
  lemma NormalizeKeepsDescription(pr: Presence)
    ensures BuildDescription(Normalize(pr)) == BuildDescription(pr)
  {
  }

  lemma NewIsConsistent(storage: Storage, head: Head)
    ensures Consistent(New(storage, head))
  {
  }

  /** Reading one key is unaffected by writes to another. */
  lemma ReadsOtherKey(s1: Storage, s2: Storage, changed: string, key: string)
    requires s1 - {changed} == s2 - {changed} && key != changed
    ensures key in s1 <==> key in s2
    ensures key in s1 ==> s1[key] == s2[key]
  {
    assert key in s1 <==> key in s1 - {changed};
    assert key in s2 <==> key in s2 - {changed};
    if key in s1 {
      assert s1[key] == (s1 - {changed})[key];
      assert s2[key] == (s2 - {changed})[key];
    }
  }

  lemma SetStatusKeepsConsistency(p: Page, status: string)
    requires Consistent(p)
    ensures Consistent(SetStatus(p, status))
  {
    if IsStatus(status) {
      var r := SetStatus(p, status);
      StatusCases(status);
      assert StoredStatus(r.storage) == status;
      ReadsOtherKey(r.storage, p.storage, StatusKey, GameKey);
      ReadsOtherKey(r.storage, p.storage, StatusKey, MusicKey);
      assert StoredActivity(r.storage, GameKey) == StoredActivity(p.storage, GameKey);
      assert StoredActivity(r.storage, MusicKey) == StoredActivity(p.storage, MusicKey);
      assert Load(r.storage) == Normalize(r.presence);
    }
  }

  lemma SetCurrentGameKeepsConsistency(p: Page, game: Option<string>)
    requires Consistent(p)
    ensures Consistent(SetCurrentGame(p, game))
  {
    var r := SetCurrentGame(p, game);
    ReadsOtherKey(r.storage, p.storage, GameKey, StatusKey);
    ReadsOtherKey(r.storage, p.storage, GameKey, MusicKey);
  }

  lemma SetCurrentMusicKeepsConsistency(p: Page, music: Option<string>)
    requires Consistent(p)
    ensures Consistent(SetCurrentMusic(p, music))
  {
    var r := SetCurrentMusic(p, music);
    ReadsOtherKey(r.storage, p.storage, MusicKey, StatusKey);
    ReadsOtherKey(r.storage, p.storage, MusicKey, GameKey);
  }

  lemma ClickKeepsConsistency(p: Page)
    requires Consistent(p)
    ensures Consistent(Click(p))
  {
    SetStatusKeepsConsistency(p, NextStatus(p.presence.status));
  }

  /**
   Running the constructor again on a consistent page changes nothing: it
   reads back the same presence (empty labels as absent) and rewrites the tags
   with exactly what they already show.
   */
  lemma ReconstructChangesNothing(p: Page)
    requires Consistent(p)
    ensures New(p.storage, p.head) == p.(presence := Normalize(p.presence))
  {
    NormalizeKeepsDescription(p.presence);
    UpdateShownIsIdentity(p.head, BuildDescription(p.presence));
  }

  /**
   A reload: the head comes back as served (`served`, which agrees with the
   live head outside the three description slots) and only storage survives.
   The new manager reads back the same presence (empty labels as absent), and
   every meta slot shows what it showed before the reload.
   */
  lemma ReloadRestoresPage(p: Page, served: Head)
    requires Consistent(p) && OtherTagsAlike(p.head, served)
    ensures New(p.storage, served).presence == Normalize(p.presence)
    ensures forall a, v :: Content(New(p.storage, served).head, a, v) == Content(p.head, a, v)
  {
    var r := New(p.storage, served);
    NormalizeKeepsDescription(p.presence);
    assert Shows(r.head, BuildDescription(p.presence));
    forall a, v
      ensures Content(r.head, a, v) == Content(p.head, a, v)
    {
      if !IsDescriptionSlot(a, v) {
        assert Content(r.head, a, v) == Content(served, a, v);
      }
    }
  }

  /** A repeated `setStatus` with the same value changes nothing more. */
  lemma SetStatusIdempotent(p: Page, status: string)
    ensures SetStatus(SetStatus(p, status), status) == SetStatus(p, status)
  {
    if IsStatus(status) {
      var r := ApplyStatus(p, status);
      assert r.storage[StatusKey := status] == r.storage;
      UpdateShownIsIdentity(r.head, BuildDescription(r.presence));
      assert ApplyStatus(r, status) == r;
    }
  }

  /** A storage that differs from `s` at most in `key`, and holds `value` there, is `s` with `key` set. */
  lemma WrittenAtKey(written: Storage, s: Storage, key: string, value: string)
    requires written - {key} == s - {key}
    requires key in written && written[key] == value
    ensures written == s[key := value]
  {
    forall k | k != key
      ensures k in written <==> k in s
      ensures k in written ==> written[k] == s[k]
    {
      ReadsOtherKey(written, s, key, k);
    }
  }

  /**
   Four clicks from a consistent page with a valid status come back to it:
   same presence, every meta slot reads the same, and the status entry is
   stored (it may have been absent before, when the status was the default).
   */
  lemma FourClicksRestorePage(p: Page)
    requires Consistent(p) && IsStatus(p.presence.status)
    ensures var r := Click(Click(Click(Click(p))));
      && r.presence == p.presence
      && r.storage == p.storage[StatusKey := p.presence.status]
      && forall a, v :: Content(r.head, a, v) == Content(p.head, a, v)
  {
    var p1 := Click(p);
    var p2 := Click(p1);
    var p3 := Click(p2);
    var r := Click(p3);
    FourClicksReturn(p.presence.status);
    assert r.presence == p.presence;
    assert r.storage - {StatusKey} == p.storage - {StatusKey};
    WrittenAtKey(r.storage, p.storage, StatusKey, p.presence.status);
    var d := BuildDescription(p.presence);
    assert Shows(r.head, d) && Shows(p.head, d);
    forall a, v
      ensures Content(r.head, a, v) == Content(p.head, a, v)
    {
      if (a, v) == ("property", "og:description") {
      } else if (a, v) == ("name", "twitter:description") {
      } else if (a, v) == ("name", "description") {
      } else {
        assert !IsDescriptionSlot(a, v);
        assert Content(r.head, a, v) == Content(p3.head, a, v) == Content(p2.head, a, v)
            == Content(p1.head, a, v) == Content(p.head, a, v);
      }
    }
  }
}
