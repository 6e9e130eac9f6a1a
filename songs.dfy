/**
 * The playlist builder: `get_artistID`, which picks an artist uri out of the
 * catalog's search results, and `build_song_list`, which collects the top
 * tracks of the first night's artists. The catalog is given as two
 * functions: `search` from a query string to the candidate artists it
 * returns, and `topTracks` from an artist uri to the uris of its top tracks.
 */
module Songs {
  import opened Wrappers
  import opened Strings

  /** One item of `results['artists']['items']`: its `name` and `uri`. */
  datatype Candidate = Candidate(name: string, uri: string)

  /** Why `build_song_list` raises instead of returning. */
  datatype SongError =
    | NoShowNights               // `artists[0]` on an empty schedule
    | MalformedTrackUri(uri: string)  // fewer than three `:`-separated fields in a track uri

  /** The annotation deleted from artist names before searching. */
  const ClosingSet := "(closing set)"

  /** Top tracks taken per matched artist (`[:5]`). */
  const MaxTracks := 5

  /** The exact-match test of `get_artistID`: only the candidate's name is lower-cased. */
  predicate Matches(artist: string, c: Candidate)
    ensures Matches(artist, c) ==> |c.name| == |artist|
  {
    Lower(c.name) == artist
  }

  /** The uri of the last candidate that matches, or `None` when none does. */
  function ArtistUri(artist: string, items: seq<Candidate>): Option<string>
    decreases |items|
  {
    if items == [] then None
    else if Matches(artist, items[|items| - 1]) then Some(items[|items| - 1].uri)
    else ArtistUri(artist, items[..|items| - 1])
  }

  /** There is no uri exactly when no candidate matches. */
  lemma {:induction false} ArtistUriNone(artist: string, items: seq<Candidate>)
    ensures ArtistUri(artist, items) == None <==> forall i :: 0 <= i < |items| ==> !Matches(artist, items[i])
    decreases |items|
  {
    if items != [] {
      var init := items[..|items| - 1];
      ArtistUriNone(artist, init);
      assert forall i :: 0 <= i < |init| ==> init[i] == items[i];
    }
  }

  /** The candidate at index `i` matches and no later one does. */
  predicate LastMatchAt(artist: string, items: seq<Candidate>, i: int)
  {
    0 <= i < |items| && Matches(artist, items[i]) &&
    forall j :: i < j < |items| ==> !Matches(artist, items[j])
  }

  /** A uri, when there is one, belongs to a matching candidate that no later candidate matches after. */
  lemma {:induction false} ArtistUriLast(artist: string, items: seq<Candidate>)
    requires ArtistUri(artist, items).Some?
    ensures exists i :: LastMatchAt(artist, items, i) && items[i].uri == ArtistUri(artist, items).value
    decreases |items|
  {
    var n := |items| - 1;
    if !Matches(artist, items[n]) {
      var init := items[..n];
      ArtistUriLast(artist, init);
      var i :| LastMatchAt(artist, init, i) && init[i].uri == ArtistUri(artist, init).value;
      assert items[i] == init[i];
      assert forall j :: i < j < n ==> items[j] == init[j];
    }
  }

  /** A name with an upper-case ASCII letter is never found: lower-cased candidate names have none. */
  lemma UpperCaseQueryNeverMatches(artist: string, items: seq<Candidate>, k: nat)
    requires k < |artist| && IsUpper(artist[k])
    ensures ArtistUri(artist, items) == None
  {
    forall i | 0 <= i < |items| ensures !Matches(artist, items[i]) {
      if Matches(artist, items[i]) {
        LowerAt(items[i].name, k);
      }
    }
    ArtistUriNone(artist, items);
  }

  /**
   * `get_artistID(artist, results)`: scans every candidate and keeps the uri
   * of each one whose lower-cased name equals `artist`, so the last match wins.
   */
  method GetArtistId(artist: string, items: seq<Candidate>) returns (artistUri: Option<string>)
    ensures artistUri == ArtistUri(artist, items)
    ensures artistUri.None? <==> forall i :: 0 <= i < |items| ==> !Matches(artist, items[i])
  {
    artistUri := None;
    var i := 0;
    while i < |items|
      invariant 0 <= i <= |items|
      invariant artistUri == ArtistUri(artist, items[..i])
    {
      assert items[..i + 1][..i] == items[..i];
      if Lower(items[i].name) == artist {
        artistUri := Some(items[i].uri);
      }
      i := i + 1;
    }
    assert items[..|items|] == items;
    ArtistUriNone(artist, items);
  }

  /** `re.sub('\(closing set\)', '', artist.lower())`. */
  function CleanName(name: string): string
  {
    RemoveAll(Lower(name), ClosingSet)
  }

  /** The query `build_song_list` sends to the catalog search. */
  function Query(artist: string): string
  {
    "artist:" + artist
  }

  /** `uri.split(':')[2]`, or `None` where that index would be out of range. */
  function TrackId(uri: string): Option<string>
  {
    var fields := Split(uri, ':');
    if |fields| > 2 then Some(fields[2]) else None
  }

  /** The ids of a sequence of track uris, failing at the first malformed one. */
  function TrackIds(uris: seq<string>): Result<seq<string>, SongError>
    decreases |uris|
  {
    if uris == [] then Success([])
    else
      var last := uris[|uris| - 1];
      match TrackIds(uris[..|uris| - 1])
      case Failure(e) => Failure(e)
      case Success(ids) =>
        match TrackId(last)
        case None => Failure(MalformedTrackUri(last))
        case Some(id) => Success(ids + [id])
  }

  /** `tracks[:5]`. */
  function TopFive(tracks: seq<string>): (r: seq<string>)
    ensures |r| == if |tracks| <= MaxTracks then |tracks| else MaxTracks
    ensures r == tracks[..|r|]
  {
    if |tracks| <= MaxTracks then tracks else tracks[..MaxTracks]
  }

  /** What one artist adds to the list: nothing when the search has no exact match, else the ids of its first five top tracks. */
  function ArtistSongs(name: string, search: string -> seq<Candidate>, topTracks: string -> seq<string>): Result<seq<string>, SongError>
  {
    var artist := CleanName(name);
    match ArtistUri(artist, search(Query(artist)))
    case None => Success([])
    case Some(uri) => TrackIds(TopFive(topTracks(uri)))
  }

  /** The list built from one night's artists, in artist order, failing at the first malformed track uri. */
  function SongList(names: seq<string>, search: string -> seq<Candidate>, topTracks: string -> seq<string>): Result<seq<string>, SongError>
    decreases |names|
  {
    if names == [] then Success([])
    else
      match SongList(names[..|names| - 1], search, topTracks)
      case Failure(e) => Failure(e)
      case Success(songs) =>
        match ArtistSongs(names[|names| - 1], search, topTracks)
        case Failure(e) => Failure(e)
        case Success(more) => Success(songs + more)
  }

  /** A failure in a prefix of the uris is the failure of the whole sequence. */
  lemma {:induction false} TrackIdsFailurePersists(uris: seq<string>, m: nat)
    requires m <= |uris|
    requires TrackIds(uris[..m]).Failure?
    ensures TrackIds(uris) == TrackIds(uris[..m])
    decreases |uris| - m
  {
    if m < |uris| {
      var init := uris[..|uris| - 1];
      assert init[..m] == uris[..m];
      TrackIdsFailurePersists(init, m);
    } else {
      assert uris[..m] == uris;
    }
  }

  /** The first uri without a third field is the one the whole sequence fails on. */
  lemma TrackIdsFirstFailure(uris: seq<string>, k: nat)
    requires k < |uris| && TrackId(uris[k]).None?
    requires forall j :: 0 <= j < k ==> TrackId(uris[j]).Some?
    ensures TrackIds(uris) == Failure(MalformedTrackUri(uris[k]))
  {
    var init := uris[..k];
    assert forall j :: 0 <= j < k ==> init[j] == uris[j];
    TrackIdsSpec(init);
    TrackIdsStep(uris, k);
    TrackIdsFailurePersists(uris, k + 1);
  }

  /** The ids come out one per uri, in order, exactly when every uri has a third field. */
  lemma {:induction false} TrackIdsSpec(uris: seq<string>)
    ensures TrackIds(uris).Success? <==> forall k :: 0 <= k < |uris| ==> TrackId(uris[k]).Some?
    ensures TrackIds(uris).Success? ==>
      |TrackIds(uris).value| == |uris| &&
      forall k :: 0 <= k < |uris| ==> TrackIds(uris).value[k] == TrackId(uris[k]).value
    decreases |uris|
  {
    if uris != [] {
      var init := uris[..|uris| - 1];
      TrackIdsSpec(init);
      assert forall k :: 0 <= k < |init| ==> init[k] == uris[k];
    }
  }

  /** A failure in a prefix of the night's artists is the failure of the whole night. */
  lemma {:induction false} SongListFailurePersists(names: seq<string>, m: nat, search: string -> seq<Candidate>, topTracks: string -> seq<string>)
    requires m <= |names|
    requires SongList(names[..m], search, topTracks).Failure?
    ensures SongList(names, search, topTracks) == SongList(names[..m], search, topTracks)
    decreases |names| - m
  {
    if m < |names| {
      var init := names[..|names| - 1];
      assert init[..m] == names[..m];
      SongListFailurePersists(init, m, search, topTracks);
    } else {
      assert names[..m] == names;
    }
  }

  /** One more uri: its id is appended, or the sequence fails on it. */
  lemma TrackIdsStep(uris: seq<string>, t: nat)
    requires t < |uris|
    requires TrackIds(uris[..t]).Success?
    ensures TrackIds(uris[..t + 1]) ==
      match TrackId(uris[t])
      case None => Failure(MalformedTrackUri(uris[t]))
      case Some(id) => Success(TrackIds(uris[..t]).value + [id])
  {
    assert uris[..t + 1][..t] == uris[..t];
  }

  /** One more artist: its songs are appended, or the night fails on it. */
  lemma SongListStep(names: seq<string>, n: nat, search: string -> seq<Candidate>, topTracks: string -> seq<string>)
    requires n < |names|
    requires SongList(names[..n], search, topTracks).Success?
    ensures SongList(names[..n + 1], search, topTracks) ==
      match ArtistSongs(names[n], search, topTracks)
      case Failure(e) => Failure(e)
      case Success(more) => Success(SongList(names[..n], search, topTracks).value + more)
  {
    assert names[..n + 1][..n] == names[..n];
  }

  /** The first artist whose songs fail decides the night: its failure is the result. */
  lemma {:induction false} SongListFirstFailure(names: seq<string>, k: nat, search: string -> seq<Candidate>, topTracks: string -> seq<string>)
    requires k < |names|
    requires SongList(names[..k], search, topTracks).Success?
    requires ArtistSongs(names[k], search, topTracks).Failure?
    ensures SongList(names, search, topTracks) == ArtistSongs(names[k], search, topTracks)
    decreases |names|
  {
    if |names| == k + 1 {
      SongListFailsAt(names, k, search, topTracks);
      assert names[..k + 1] == names;
    } else {
      var init := names[..|names| - 1];
      assert init[..k] == names[..k];
      SongListFirstFailure(init, k, search, topTracks);
    }
  }

  /** Artist k's failure ends the prefix that includes it. */
  lemma SongListFailsAt(names: seq<string>, k: nat, search: string -> seq<Candidate>, topTracks: string -> seq<string>)
    requires k < |names|
    requires SongList(names[..k], search, topTracks).Success?
    requires ArtistSongs(names[k], search, topTracks).Failure?
    ensures SongList(names[..k + 1], search, topTracks) == ArtistSongs(names[k], search, topTracks)
  {
    SongListStep(names, k, search, topTracks);
  }

  /** The inner loop of `build_song_list`: the id of each top track, in order, failing at the first malformed uri. */
  method TrackIdsOf(tracks: seq<string>) returns (r: Result<seq<string>, SongError>)
    ensures r == TrackIds(tracks)
  {
    var ids: seq<string> := [];
    var t := 0;
    while t < |tracks|
      invariant 0 <= t <= |tracks|
      invariant TrackIds(tracks[..t]) == Success(ids)
    {
      TrackIdsStep(tracks, t);
      var id := TrackId(tracks[t]);
      if id.None? {
        TrackIdsFailurePersists(tracks, t + 1);
        return Failure(MalformedTrackUri(tracks[t]));
      }
      ids := ids + [id.value];
      t := t + 1;
    }
    assert tracks[..|tracks|] == tracks;
    return Success(ids);
  }

  /**
   * `build_song_list(artists, sp)`: for each artist of the first night, in
   * order, clean the name, search for it, and append the ids of the first
   * five top tracks of the matched artist; unmatched artists add nothing.
   */
  method BuildSongList(artists: seq<seq<string>>, search: string -> seq<Candidate>, topTracks: string -> seq<string>)
    returns (r: Result<seq<string>, SongError>)
    ensures artists == [] ==> r == Failure(NoShowNights)
    ensures artists != [] ==> r == SongList(artists[0], search, topTracks)
  {
    if |artists| == 0 {
      return Failure(NoShowNights);
    }
    var night := artists[0];
    var songsToAdd: seq<string> := [];
    var n := 0;
    while n < |night|
      invariant 0 <= n <= |night|
      invariant SongList(night[..n], search, topTracks) == Success(songsToAdd)
    {
      SongListStep(night, n, search, topTracks);
      var artist := CleanName(night[n]);
      var results := search(Query(artist));
      var artistUri := GetArtistId(artist, results);
      if artistUri.Some? {
        var tracks := TopFive(topTracks(artistUri.value));
        var ids := TrackIdsOf(tracks);
        assert ArtistSongs(night[n], search, topTracks) == ids;
        if ids.Failure? {
          SongListFirstFailure(night, n, search, topTracks);
          return ids;
        }
        songsToAdd := songsToAdd + ids.value;
      } else {
        assert ArtistSongs(night[n], search, topTracks) == Success([]);
        assert songsToAdd + [] == songsToAdd;
      }
      n := n + 1;
    }
    assert night[..|night|] == night;
    return Success(songsToAdd);
  }

  /** Songs of two groups of artists, one after the other; the first failure wins. */
  function Then(first: Result<seq<string>, SongError>, second: Result<seq<string>, SongError>): Result<seq<string>, SongError>
  {
    match first
    case Failure(e) => Failure(e)
    case Success(a) =>
      match second
      case Failure(e) => Failure(e)
      case Success(b) => Success(a + b)
  }

  lemma ThenUnit(x: Result<seq<string>, SongError>)
    ensures Then(x, Success([])) == x
  {
    if x.Success? {
      assert x.value + [] == x.value;
    }
  }

  lemma ThenAssoc(x: Result<seq<string>, SongError>, y: Result<seq<string>, SongError>, z: Result<seq<string>, SongError>)
    ensures Then(Then(x, y), z) == Then(x, Then(y, z))
  {
    if x.Success? && y.Success? && z.Success? {
      assert x.value + y.value + z.value == x.value + (y.value + z.value);
    }
  }

  /** The last artist of a night adds its songs after those of the others. */
  lemma SongListSnoc(names: seq<string>, search: string -> seq<Candidate>, topTracks: string -> seq<string>)
    requires names != []
    ensures SongList(names, search, topTracks) ==
      Then(SongList(names[..|names| - 1], search, topTracks), ArtistSongs(names[|names| - 1], search, topTracks))
  {
  }

  /** The list for a night is the list for its first artists followed by the list for the rest: artist order is kept. */
  lemma {:induction false} SongListAppend(a: seq<string>, b: seq<string>, search: string -> seq<Candidate>, topTracks: string -> seq<string>)
    ensures SongList(a + b, search, topTracks) == Then(SongList(a, search, topTracks), SongList(b, search, topTracks))
    decreases |b|
  {
    if b == [] {
      assert a + b == a;
      ThenUnit(SongList(a, search, topTracks));
    } else {
      var init, last := b[..|b| - 1], b[|b| - 1];
      assert (a + b)[..|a + b| - 1] == a + init;
      assert (a + b)[|a + b| - 1] == last;
      SongListSnoc(a + b, search, topTracks);
      SongListSnoc(b, search, topTracks);
      SongListAppend(a, init, search, topTracks);
      ThenAssoc(SongList(a, search, topTracks), SongList(init, search, topTracks), ArtistSongs(last, search, topTracks));
    }
  }

  /** A single artist's list is that artist's songs. */
  lemma SongListSingle(name: string, search: string -> seq<Candidate>, topTracks: string -> seq<string>)
    ensures SongList([name], search, topTracks) == ArtistSongs(name, search, topTracks)
  {
    assert [name][..0] == [];
    match ArtistSongs(name, search, topTracks)
    case Failure(_) =>
    case Success(z) =>
      assert [] + z == z;
  }

  lemma SplitAround(names: seq<string>, k: nat)
    requires k < |names|
    ensures names == names[..k] + ([names[k]] + names[k + 1..])
  {
  }

  /** An artist whose cleaned name has no exact match is skipped: the night's list is as if it were not there. */
  lemma SongListSkipsUnmatched(names: seq<string>, k: nat, search: string -> seq<Candidate>, topTracks: string -> seq<string>)
    requires k < |names|
    requires ArtistUri(CleanName(names[k]), search(Query(CleanName(names[k])))) == None
    ensures SongList(names, search, topTracks) == SongList(names[..k] + names[k + 1..], search, topTracks)
  {
    var before, after := names[..k], names[k + 1..];
    SplitAround(names, k);
    SongListAppend(before, [names[k]] + after, search, topTracks);
    SongListAppend([names[k]], after, search, topTracks);
    SongListSingle(names[k], search, topTracks);
    var rest := SongList(after, search, topTracks);
    assert Then(Success([]), rest) == rest by {
      if rest.Success? {
        assert [] + rest.value == rest.value;
      }
    }
    SongListAppend(before, after, search, topTracks);
  }

  /** A matched artist adds exactly one id per track among its first five top tracks, in top-tracks order. */
  lemma ArtistSongsMatched(name: string, search: string -> seq<Candidate>, topTracks: string -> seq<string>, uri: string)
    requires ArtistUri(CleanName(name), search(Query(CleanName(name)))) == Some(uri)
    ensures var n := if |topTracks(uri)| <= MaxTracks then |topTracks(uri)| else MaxTracks;
      (ArtistSongs(name, search, topTracks).Success? <==> forall k :: 0 <= k < n ==> TrackId(topTracks(uri)[k]).Some?) &&
      (ArtistSongs(name, search, topTracks).Success? ==>
        |ArtistSongs(name, search, topTracks).value| == n &&
        forall k :: 0 <= k < n ==> ArtistSongs(name, search, topTracks).value[k] == TrackId(topTracks(uri)[k]).value)
  {
    var tracks := topTracks(uri);
    var top := TopFive(tracks);
    assert ArtistSongs(name, search, topTracks) == TrackIds(top);
    TrackIdsSpec(top);
    assert forall k :: 0 <= k < |top| ==> top[k] == tracks[k];
  }

  /** Every artist adds at most five ids. */
  lemma ArtistSongsBound(name: string, search: string -> seq<Candidate>, topTracks: string -> seq<string>)
    ensures ArtistSongs(name, search, topTracks).Success? ==> |ArtistSongs(name, search, topTracks).value| <= MaxTracks
  {
    var artist := CleanName(name);
    match ArtistUri(artist, search(Query(artist)))
    case None =>
    case Some(uri) =>
      TrackIdsSpec(TopFive(topTracks(uri)));
  }

  /** A night of `m` artists yields at most `5 * m` ids. */
  lemma {:induction false} SongListBound(names: seq<string>, search: string -> seq<Candidate>, topTracks: string -> seq<string>)
    ensures SongList(names, search, topTracks).Success? ==>
      |SongList(names, search, topTracks).value| <= MaxTracks * |names|
    decreases |names|
  {
    if names != [] {
      SongListBound(names[..|names| - 1], search, topTracks);
      ArtistSongsBound(names[|names| - 1], search, topTracks);
    }
  }

  /** No two occurrences of the annotation can overlap: its opening parenthesis occurs nowhere else in it. */
  lemma ClosingSetBorderless()
    ensures Borderless(ClosingSet)
  {
    var p := ClosingSet;
    assert '(' !in p[1..];
    forall k | 0 < k < |p| ensures p[..k] != p[|p| - k..] {
      assert p[..k][0] == '(';
      assert p[|p| - k..][0] == p[1..][|p| - k - 1];
    }
  }

  /**
   * Cleaning deletes an annotation wherever it stands in the lower-cased
   * name and cleans the text on either side of it, which is otherwise kept,
   * surrounding spaces included.
   */
  lemma CleanNameDeletesAnnotation(name: string, before: string, after: string)
    requires Lower(name) == before + ClosingSet + after
    ensures CleanName(name) == RemoveAll(before, ClosingSet) + RemoveAll(after, ClosingSet)
  {
    ClosingSetBorderless();
    RemoveAllAround(before, ClosingSet, after);
  }

  /** A lower-case name without the annotation is searched for as it is. */
  lemma CleanNameKeepsPlainNames(name: string)
    requires !Occurs(ClosingSet, Lower(name))
    ensures CleanName(name) == Lower(name)
  {
    RemoveAllAbsent(Lower(name), ClosingSet);
  }

  /**
   * The annotation is found in any letter case, since the name is lower-cased
   * first; the two sides of it are cleaned as if they were separate names.
   */
  lemma CleanNameSplitsAtAnnotation(before: string, mark: string, after: string)
    requires Lower(mark) == ClosingSet
    ensures CleanName(before + mark + after) == CleanName(before) + CleanName(after)
  {
    LowerAppend(before + mark, after);
    LowerAppend(before, mark);
    CleanNameDeletesAnnotation(before + mark + after, Lower(before), Lower(after));
  }

  /**
   * An annotation at the end of a name is deleted and whatever came before
   * it is kept as it is, so the space in front of the annotation remains.
   */
  lemma CleanNameTrailingAnnotation(name: string, base: string)
    requires Lower(name) == base + ClosingSet
    requires !Occurs(ClosingSet, base)
    ensures CleanName(name) == base
  {
    assert base + ClosingSet == base + ClosingSet + "";
    CleanNameDeletesAnnotation(name, base, "");
    RemoveAllAbsent(base, ClosingSet);
  }

  /** A closing act is searched for as `dj shadow `, trailing space included. */
  lemma CleanNameExample()
    ensures CleanName("DJ Shadow " + ClosingSet) == "dj shadow "
  {
    LowerAppend("DJ Shadow ", ClosingSet);
    LowerClosingSet();
    LowerActName();
    ActNameHasNoAnnotation();
    CleanNameTrailingAnnotation("DJ Shadow " + ClosingSet, "dj shadow ");
  }

  // Evaluation of the examples, one short piece of a name at a time.

  lemma LowerActName()
    ensures Lower("DJ Shadow ") == "dj shadow "
  {
    LowerAppend("DJ Sh", "adow ");
    LowerActNameTail();
    assert Lower("h") == "h";
    assert Lower("Sh") == "sh";
    assert Lower("DJ Sh") == "dj sh";
    assert "DJ Sh" + "adow " == "DJ Shadow ";
  }

  lemma LowerActNameTail()
    ensures Lower("adow ") == "adow "
  {
  }

  lemma ActNameHasNoAnnotation()
    ensures !Occurs(ClosingSet, "dj shadow ")
  {
  }

  lemma LowerClosingSet()
    ensures Lower(ClosingSet) == ClosingSet
  {
    LowerAppend("(closing", " set)");
    LowerAnnotationFront();
    LowerAnnotationBack();
    assert "(closing" + " set)" == ClosingSet;
  }

  lemma LowerAnnotationFront()
    ensures Lower("(closing") == "(closing"
  {
  }

  lemma LowerAnnotationBack()
    ensures Lower(" set)") == " set)"
  {
  }

  /** Matching is exact after lower-casing: a longer catalog name does not match, a differently cased one does. */
  lemma ExactMatchExample()
    ensures ArtistUri(CleanName("Foo Bar"), [Candidate("Foo Bar Trio", "u1"), Candidate("FOO BAR", "u2")]) == Some("u2")
    ensures ArtistUri(CleanName("Foo Bar"), [Candidate("Foo Bar Trio", "u1")]) == None
  {
    CleanFooBar();
    LowerFooBarCaps();
    assert Lower("Foo Bar Trio") != "foo bar" by {
      assert |Lower("Foo Bar Trio")| == 12;
    }
  }

  lemma CleanFooBar()
    ensures CleanName("Foo Bar") == "foo bar"
  {
    LowerFooBar();
    RemoveAllAbsent("foo bar", ClosingSet);
  }

  lemma LowerFooBar()
    ensures Lower("Foo Bar") == "foo bar"
  {
    assert Lower("ar") == "ar";
    assert Lower("Bar") == "bar";
    assert Lower("o Bar") == "o bar";
    assert Lower("Foo Bar") == "foo bar";
  }

  lemma LowerFooBarCaps()
    ensures Lower("FOO BAR") == "foo bar"
  {
    assert Lower("AR") == "ar";
    assert Lower("BAR") == "bar";
    assert Lower("O BAR") == "o bar";
    assert Lower("FOO BAR") == "foo bar";
  }

  /** With two exact matches the later one is taken. */
  lemma LastMatchExample()
    ensures ArtistUri("foo bar", [Candidate("Foo Bar", "u1"), Candidate("foo bar", "u2")]) == Some("u2")
  {
    LowerFooBar();
    LowerIdempotent("Foo Bar");
  }

  /** The id is the whole third field when the uri has exactly three. */
  lemma TrackIdOfThreeFields(a: string, b: string, id: string)
    requires ':' !in a && ':' !in b && ':' !in id
    ensures TrackId(a + ":" + b + ":" + id) == Some(id)
  {
    SplitAfterField(a, ':', b + ":" + id);
    SplitAfterField(b, ':', id);
    SplitWithoutSeparator(id, ':');
    assert a + ":" + b + ":" + id == a + [':'] + (b + [':'] + id);
  }

  /** Fields after the third are ignored. */
  lemma TrackIdIgnoresLaterFields(a: string, b: string, id: string, rest: string)
    requires ':' !in a && ':' !in b && ':' !in id
    ensures TrackId(a + ":" + b + ":" + id + ":" + rest) == Some(id)
  {
    var t2 := id + [':'] + rest;
    var t1 := b + [':'] + t2;
    var s := a + [':'] + t1;
    assert a + ":" + b + ":" + id + ":" + rest == s;
    SplitAfterField(a, ':', t1);
    SplitAfterField(b, ':', t2);
    SplitAfterField(id, ':', rest);
    assert Split(s, ':') == [a] + ([b] + ([id] + Split(rest, ':')));
  }

  /** A uri with fewer than two colons has no third field, and `build_song_list` raises on it when it is among the first five top tracks of a matched artist. */
  lemma TrackIdTooFewFields(a: string, b: string)
    requires ':' !in a && ':' !in b
    ensures TrackId(a) == None
    ensures TrackId(a + ":" + b) == None
  {
    SplitWithoutSeparator(a, ':');
    SplitAfterField(a, ':', b);
    SplitWithoutSeparator(b, ':');
  }

  /** A catalog track uri gives the bare track id. */
  lemma TrackIdExample()
    ensures TrackId("spotify:track:6rqhFgbbKwnb9MLmUQDhG6") == Some("6rqhFgbbKwnb9MLmUQDhG6")
  {
    assert "spotify" + ":" + "track" + ":" + "6rqhFgbbKwnb9MLmUQDhG6" == "spotify:track:6rqhFgbbKwnb9MLmUQDhG6";
    assert ':' !in "spotify" && ':' !in "track" && ':' !in "6rqhFgbbKwnb9MLmUQDhG6";
    TrackIdOfThreeFields("spotify", "track", "6rqhFgbbKwnb9MLmUQDhG6");
  }
}
