/**
 The description string `buildDescription` assembles from the manager's
 status and its two activity labels, together with a second construction of
 the description as a list of segments joined with " - ".
 */
module Describe {

  import opened Options
  import opened StatusTable
  import opened Text

  /** The in-memory fields of the manager: `status`, `currentGame`, `currentMusic`. */
  datatype Presence = Presence(status: string, game: Option<string>, music: Option<string>)

  const Separator: string := " - "
  const PlayingLabel: string := "Playing: "
  const ListeningLabel: string := "Listening: "
  const Fallback: string := "Speedrunner | Gamer"

  /** JavaScript truthiness of a label: `null` and the empty string are both absent. */
  predicate Truthy(activity: Option<string>) {
    activity.Some? && activity.value != ""
  }

  /** The emoji for the status (idle's for an unknown one), a space, then the capitalised raw status. */
  function Header(status: string): string {
    EmojiFor(status) + " " + Capitalize(status)
  }

  /** " - Playing: game" when the game is truthy, nothing otherwise. */
  function PlayingPart(game: Option<string>): string {
    if Truthy(game) then Separator + PlayingLabel + game.value else ""
  }

  /** " - Listening: music" when the music is truthy, nothing otherwise. */
  function ListeningPart(music: Option<string>): string {
    if Truthy(music) then Separator + ListeningLabel + music.value else ""
  }

  /** " - Speedrunner | Gamer" when neither label is truthy, nothing otherwise. */
  function FallbackPart(game: Option<string>, music: Option<string>): string {
    if !Truthy(game) && !Truthy(music) then Separator + Fallback else ""
  }

  /** The header followed by each part, appended in the order the source appends them. */
  function Compose(header: string, game: Option<string>, music: Option<string>): string {
    header + PlayingPart(game) + ListeningPart(music) + FallbackPart(game, music)
  }

  /** `buildDescription`. */
  function BuildDescription(p: Presence): (d: string)
    ensures Header(p.status) <= d
    ensures !Truthy(p.game) && !Truthy(p.music) ==> d == Header(p.status) + Separator + Fallback
  {
    var h := Header(p.status);
    ComposeStartsWithHeader(h, p.game, p.music);
    ComposeWithoutActivity(h, p.game, p.music);
    Compose(h, p.game, p.music)
  }

  lemma ComposeStartsWithHeader(h: string, game: Option<string>, music: Option<string>)
    ensures h <= Compose(h, game, music)
  {
    var g := PlayingPart(game);
    var m := ListeningPart(music);
    var f := FallbackPart(game, music);
    Assoc(h, g, m);
    Assoc(h, g + m, f);
    PrefixOfConcat(h, g + m + f);
  }

  lemma ComposeWithoutActivity(h: string, game: Option<string>, music: Option<string>)
    ensures !Truthy(game) && !Truthy(music) ==> Compose(h, game, music) == h + Separator + Fallback
  {
    if !Truthy(game) && !Truthy(music) {
      AppendEmpty(h);
      Assoc(h, Separator, Fallback);
    }
  }

  /** The segments after a header: the activities, or the fallback when there are none. */
  function SegmentList(header: string, game: Option<string>, music: Option<string>): seq<string> {
    if Truthy(game) && Truthy(music) then [header, PlayingLabel + game.value, ListeningLabel + music.value]
    else if Truthy(game) then [header, PlayingLabel + game.value]
    else if Truthy(music) then [header, ListeningLabel + music.value]
    else [header, Fallback]
  }

  /** The description as a list of segments: header, then activities, or the fallback. */
  function Segments(p: Presence): seq<string> {
    SegmentList(Header(p.status), p.game, p.music)
  }

  lemma JoinTwo(a: string, b: string, sep: string)
    ensures Join([a, b], sep) == a + sep + b
  {
    assert [a, b] == [a] + [b];
    JoinCons(a, [b], sep);
  }

  lemma JoinThree(a: string, b: string, c: string, sep: string)
    ensures Join([a, b, c], sep) == a + sep + (b + sep + c)
  {
    assert [a, b, c] == [a] + [b, c];
    JoinCons(a, [b, c], sep);
    JoinTwo(b, c, sep);
  }

  lemma ComposeIsJoin(h: string, game: Option<string>, music: Option<string>)
    ensures Compose(h, game, music) == Join(SegmentList(h, game, music), Separator)
  {
    if Truthy(game) && Truthy(music) {
      var g := PlayingLabel + game.value;
      var m := ListeningLabel + music.value;
      JoinThree(h, g, m, Separator);
      Assoc(Separator, PlayingLabel, game.value);
      Assoc(Separator, ListeningLabel, music.value);
      AppendEmpty(h + PlayingPart(game) + ListeningPart(music));
      Regroup(h, Separator, g, m);
    } else if Truthy(game) {
      var g := PlayingLabel + game.value;
      JoinTwo(h, g, Separator);
      Assoc(Separator, PlayingLabel, game.value);
      AppendEmpty(h + PlayingPart(game));
      AppendEmpty(h + PlayingPart(game) + "");
      Assoc(h, Separator, g);
    } else if Truthy(music) {
      var m := ListeningLabel + music.value;
      JoinTwo(h, m, Separator);
      Assoc(Separator, ListeningLabel, music.value);
      AppendEmpty(h);
      AppendEmpty(h + ListeningPart(music));
      Assoc(h, Separator, m);
    } else {
      JoinTwo(h, Fallback, Separator);
      ComposeWithoutActivity(h, game, music);
    }
  }

  /** `buildDescription` is exactly the segments joined with " - ". */
  lemma DescriptionIsJoinedSegments(p: Presence)
    ensures BuildDescription(p) == Join(Segments(p), Separator)
  {
    ComposeIsJoin(Header(p.status), p.game, p.music);
  }

  predicate IsPlaying(segment: string) {
    PlayingLabel <= segment
  }

  predicate IsListening(segment: string) {
    ListeningLabel <= segment
  }

  lemma DifferentFirstCharNotPrefix(a: string, b: string)
    requires |a| > 0 && |b| > 0 && a[0] != b[0]
    ensures !(a <= b)
  {
  }

  /** The header starts with an emoji, so it reads as no activity segment. */
  lemma HeaderIsNoActivity(status: string)
    ensures !IsPlaying(Header(status)) && !IsListening(Header(status)) && Header(status) != Fallback
  {
    var h := Header(status);
    assert h[0] == EmojiFor(status)[0];
    assert EmojiFor(status) in Emojis.Values;
    DifferentFirstCharNotPrefix(PlayingLabel, h);
    DifferentFirstCharNotPrefix(ListeningLabel, h);
    assert h[0] != Fallback[0];
  }

  /** Each kind of segment is recognisable by its start. */
  lemma SegmentKinds(game: string, music: string)
    ensures IsPlaying(PlayingLabel + game) && !IsListening(PlayingLabel + game) && PlayingLabel + game != Fallback
    ensures IsListening(ListeningLabel + music) && !IsPlaying(ListeningLabel + music) && ListeningLabel + music != Fallback
    ensures !IsPlaying(Fallback) && !IsListening(Fallback)
  {
    var g := PlayingLabel + game;
    var m := ListeningLabel + music;
    assert g[..|PlayingLabel|] == PlayingLabel;
    assert m[..|ListeningLabel|] == ListeningLabel;
    DifferentFirstCharNotPrefix(ListeningLabel, g);
    DifferentFirstCharNotPrefix(PlayingLabel, m);
    DifferentFirstCharNotPrefix(PlayingLabel, Fallback);
    DifferentFirstCharNotPrefix(ListeningLabel, Fallback);
    assert g[0] != Fallback[0] && m[0] != Fallback[0];
  }

  lemma SegmentListRules(h: string, game: Option<string>, music: Option<string>)
    requires !IsPlaying(h) && !IsListening(h) && h != Fallback
    ensures var segs := SegmentList(h, game, music);
      && segs[0] == h
      && ((exists i :: 0 <= i < |segs| && IsPlaying(segs[i])) <==> Truthy(game))
      && ((exists i :: 0 <= i < |segs| && IsListening(segs[i])) <==> Truthy(music))
      && (Truthy(game) ==> segs[1] == PlayingLabel + game.value)
      && (Truthy(music) ==> segs[|segs| - 1] == ListeningLabel + music.value)
      && (Fallback in segs <==> !Truthy(game) && !Truthy(music))
  {
    var segs := SegmentList(h, game, music);
    var g := PlayingLabel + (if game.Some? then game.value else "");
    var m := ListeningLabel + (if music.Some? then music.value else "");
    SegmentKinds(if game.Some? then game.value else "", if music.Some? then music.value else "");
    if Truthy(game) && Truthy(music) {
      assert segs == [h, g, m];
      assert IsPlaying(segs[1]) && IsListening(segs[2]);
    } else if Truthy(game) {
      assert segs == [h, g];
      assert IsPlaying(segs[1]);
    } else if Truthy(music) {
      assert segs == [h, m];
      assert IsListening(segs[1]);
    } else {
      assert segs == [h, Fallback];
    }
  }

  /**
   Segment-level reading of the three rules: a Playing segment exactly when
   the game is truthy, a Listening segment exactly when the music is truthy,
   Playing before Listening, and the fallback exactly when both are absent.
   */
  lemma SegmentRules(p: Presence)
    ensures Segments(p)[0] == Header(p.status)
    ensures (exists i :: 0 <= i < |Segments(p)| && IsPlaying(Segments(p)[i])) <==> Truthy(p.game)
    ensures (exists i :: 0 <= i < |Segments(p)| && IsListening(Segments(p)[i])) <==> Truthy(p.music)
    ensures Truthy(p.game) ==> Segments(p)[1] == PlayingLabel + p.game.value
    ensures Truthy(p.music) ==> Segments(p)[|Segments(p)| - 1] == ListeningLabel + p.music.value
    ensures Fallback in Segments(p) <==> !Truthy(p.game) && !Truthy(p.music)
  {
    HeaderIsNoActivity(p.status);
    SegmentListRules(Header(p.status), p.game, p.music);
  }

  predicate EndsWith(d: string, t: string) {
    |t| <= |d| && d[|d| - |t|..] == t
  }

  lemma ComposeShowsActivities(h: string, game: Option<string>, music: Option<string>)
    ensures Truthy(game) ==> OccursAt(Compose(h, game, music), |h|, Separator + PlayingLabel + game.value)
    ensures Truthy(music) ==> EndsWith(Compose(h, game, music), Separator + ListeningLabel + music.value)
    ensures Truthy(game) && Truthy(music) ==>
      |h| + |Separator + PlayingLabel + game.value|
      <= |Compose(h, game, music)| - |Separator + ListeningLabel + music.value|
  {
    var g := PlayingPart(game);
    var m := ListeningPart(music);
    var f := FallbackPart(game, music);
    if Truthy(game) {
      Assoc(h + g, m, f);
      SliceOfConcat(h, g, m + f);
    }
    if Truthy(music) {
      AppendEmpty(h + g + m);
      SuffixOfConcat(h + g, m);
    }
  }

  /**
   The activities on the string itself: the Playing segment right after the
   header when the game is truthy, the Listening segment at the very end when
   the music is truthy, and Playing ending before Listening begins.
   */
  lemma DescriptionShowsActivities(p: Presence)
    ensures Truthy(p.game) ==>
      OccursAt(BuildDescription(p), |Header(p.status)|, Separator + PlayingLabel + p.game.value)
    ensures Truthy(p.music) ==>
      EndsWith(BuildDescription(p), Separator + ListeningLabel + p.music.value)
    ensures Truthy(p.game) && Truthy(p.music) ==>
      |Header(p.status)| + |Separator + PlayingLabel + p.game.value|
      <= |BuildDescription(p)| - |Separator + ListeningLabel + p.music.value|
  {
    ComposeShowsActivities(Header(p.status), p.game, p.music);
  }

  /** Reads the status back off a description from its leading emoji. */
  function StatusShown(d: string): Option<string> {
    if |d| == 0 then None
    else if [d[0]] == OnlineEmoji then Some(Online)
    else if [d[0]] == IdleEmoji then Some(Idle)
    else if [d[0]] == DndEmoji then Some(Dnd)
    else if [d[0]] == OfflineEmoji then Some(Offline)
    else None
  }

  /**
   The leading emoji identifies a valid status; an unrecognised status is
   shown with the idle emoji although its own name is printed after it.
   */
  lemma StatusShownRoundTrip(p: Presence)
    ensures IsStatus(p.status) ==> StatusShown(BuildDescription(p)) == Some(p.status)
    ensures !IsStatus(p.status) ==> StatusShown(BuildDescription(p)) == Some(Idle)
    ensures !IsStatus(p.status) ==> Header(p.status) == IdleEmoji + " " + Capitalize(p.status)
  {
    var d := BuildDescription(p);
    var e := EmojiFor(p.status);
    assert d[0] == Header(p.status)[0] == e[0];
    assert [d[0]] == e;
  }

  /** Worked case: the dnd header is the dnd emoji followed by "Dnd". */
  lemma DndHeaderExample()
    ensures Header(Dnd) == DndEmoji + " Dnd"
  {
    assert Capitalize(Dnd) == "Dnd";
  }

  /** Worked case: a game without music. */
  lemma GameOnlyExample()
    ensures BuildDescription(Presence(Dnd, Some("Celeste"), None))
            == DndEmoji + " Dnd" + Separator + PlayingLabel + "Celeste"
  {
    var h := Header(Dnd);
    DndHeaderExample();
    AppendEmpty(h + PlayingPart(Some("Celeste")));
    AppendEmpty(h + PlayingPart(Some("Celeste")) + "");
    Assoc(h, Separator + PlayingLabel, "Celeste");
    Assoc(h, Separator, PlayingLabel);
  }

  /** Worked case: empty labels count as absent. */
  lemma EmptyLabelsExample()
    ensures BuildDescription(Presence(Online, Some(""), Some(""))) == Header(Online) + Separator + Fallback
  {
    var p := Presence(Online, Some(""), Some(""));
    assert !Truthy(p.game) && !Truthy(p.music);
  }

  /** Worked case: an unknown stored status keeps its name but borrows the idle emoji. */
  lemma UnknownStatusExample()
    ensures BuildDescription(Presence("away", None, None)) == IdleEmoji + " Away" + Separator + Fallback
  {
    assert EmojiFor("away") == IdleEmoji;
    assert Capitalize("away") == "Away";
  }
}
