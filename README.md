# Hotel Utah lineup: a Dafny model of the script's transformations

The script `getHotelUtah.py` scrapes the Hotel Utah schedule page, builds a
Spotify playlist from the top tracks of the first night's artists, and
texts the lineup with the playlist link. This project models the
deterministic steps between those service calls and proves what they
compute:

- `getArtists` (module `Schedule`): listing blocks become index-aligned
  sequences of dates and artist lists. Each block is reduced to the texts of
  its `h2.dates` and `h1` elements.
- `get_artistID` (module `Songs`): a scan of catalog search results for an
  exact lower-cased name match, keeping the last match.
- `build_song_list` (module `Songs`): for each artist of the first night,
  the name is lower-cased and stripped of `(closing set)`, then searched for.
  A match adds the ids of its first five top tracks; an artist with no match
  adds nothing. The catalog is modelled as two functions: `search`, from
  query to candidates, and `topTracks`, from artist uri to track uris.
- `buildText` (module `Message`): the text message.
- `Strings`: the Python string operations the code relies on. These are
  `join`, `split` on one character, ASCII `lower`, and `re.sub` with a
  literal pattern.

The loops of `getArtists`, `get_artistID` and `build_song_list` are Dafny
methods with loop invariants. `GetArtistId` and `BuildSongList` are proved
equal to the functions `ArtistUri` and `SongList`, and the remaining
lemmas are proved about those functions. `buildText` is a single
expression, so it is a function, described by lemmas.

Points where the code behaves differently from what a reader might expect:

- `get_artistID` overwrites `artist_uri` on every match, so the last
  exact match wins, not the first (`Songs.ArtistUriLast`,
  `Songs.LastMatchExample`).
- `build_song_list` does not strip a suffix. It deletes every
  `(closing set)` anywhere in the lower-cased name, in one left-to-right
  pass, and trims nothing.
- `getArtists` raises an `IndexError` at the first block without
  `h2.dates`. The model returns `MissingDate` with that block's index.
- `build_song_list` fails in two more places. It indexes `artists[0]`,
  which fails when there are no show nights. It also indexes field 2 of
  each of the first five top-track uris of a matched artist, which fails for a uri with fewer than three
  `:`-separated fields. The model returns `NoShowNights` and
  `MalformedTrackUri` for these.

## Model

| member | source | states |
|---|---|---|
| Message.BuildText | getHotelUtah.py:166-167 | `buildText`: the nights' paragraphs joined by blank lines, then a blank line and the link. Its properties are stated by the `Message` lemmas below. |
| Message.Nights | getHotelUtah.py:167 | The comprehension over `range(len(dates))`: one paragraph per date. |
| Message.Night | getHotelUtah.py:167 | One night's paragraph: the date, `":\n"`, and the artists joined by newlines. |
| Strings.Join | getHotelUtah.py:166-167 | `str.join`: the parts in order with the separator between neighbours. |
| Strings.Lower | getHotelUtah.py:144 | `str.lower` on ASCII letters; the result has the input's length. |
| Songs.Matches | getHotelUtah.py:108 | The test `i['name'].lower() == artist`: only the candidate's name is lower-cased, so a matching name has the artist's length. |
| Songs.ArtistUri | getHotelUtah.py:106-110 | The specification of `get_artistID`: the uri of the last matching candidate. Its properties are `Songs.ArtistUriNone` and `Songs.ArtistUriLast`. |
| Songs.CleanName | getHotelUtah.py:144 | The name lower-cased, with every `(closing set)` deleted. Its properties are the `Songs.CleanName…` lemmas. |
| Songs.Query | getHotelUtah.py:145 | The search query `"artist:"` followed by the cleaned name. |
| Songs.TopFive | getHotelUtah.py:149 | `tracks[:5]`: the first `min(5, n)` tracks, in order. |
| Songs.TrackId | getHotelUtah.py:149 | `uri.split(':')[2]`, or no id where that index is out of range. Its properties are the `Songs.TrackId…` lemmas. |
| Songs.TrackIds | getHotelUtah.py:149 | The ids of a sequence of track uris, failing at the first malformed one. Its properties are `Songs.TrackIdsSpec` and `Songs.TrackIdsFirstFailure`. |
| Songs.ArtistSongs | getHotelUtah.py:144-149 | What one artist adds: nothing without an exact match, else the ids of its first five top tracks. Its properties are `Songs.ArtistSongsMatched` and `Songs.ArtistSongsBound`. |
| Songs.SongList | getHotelUtah.py:143-149 | The specification of `build_song_list` for one night. Its properties are the `Songs.SongList…` lemmas. |
| Schedule.GetArtists | getHotelUtah.py:85-94 | Fails exactly when some block has no `h2.dates` text, and then names the first such block. Otherwise `dates` and `artists` both have one entry per block, index-aligned with the blocks. Each date is the block's first `h2.dates` text. Each artist list is all of the block's `h1` texts, so a block without `h1` gives an empty list. |
| Songs.GetArtistId | getHotelUtah.py:98-110 | The loop returns `ArtistUri(artist, items)`. The result is `None` exactly when no candidate's lower-cased name equals `artist`. |
| Songs.ArtistUriNone | getHotelUtah.py:106-110 | No uri exactly when no candidate matches, in both directions. |
| Songs.ArtistUriLast | getHotelUtah.py:107-109 | A returned uri belongs to a matching candidate, and no later candidate matches. The last match wins. |
| Songs.UpperCaseQueryNeverMatches | getHotelUtah.py:108 | Only the candidate's name is lower-cased. So a query containing an upper-case ASCII letter never matches. |
| Songs.ExactMatchExample | getHotelUtah.py:108 | A listed `Foo Bar` matches a catalog `FOO BAR` but not `Foo Bar Trio`. |
| Songs.LastMatchExample | getHotelUtah.py:107-109 | With two exact matches, the second one's uri is returned. |
| Songs.TrackIdsOf | getHotelUtah.py:148-149 | The per-artist comprehension: the loop returns exactly `TrackIds` of the top tracks, the third field of each in order, or the failure at the first malformed uri. |
| Songs.BuildSongList | getHotelUtah.py:141-150 | With no show nights it fails with `NoShowNights`. Otherwise it returns `SongList` of the first night's artists; no other night is read. |
| Songs.SongListAppend | getHotelUtah.py:143-149 | The list for `a + b` is the list for `a` followed by the list for `b`, so artist order is kept. The first failure wins. |
| Songs.SongListSkipsUnmatched | getHotelUtah.py:146-147 | An artist whose cleaned name has no exact match changes nothing: the list equals the list without that artist. |
| Songs.ArtistSongsMatched | getHotelUtah.py:148-149 | A matched artist adds one id per track among the first `min(5, n)` top tracks, in top-tracks order. Each id is the `TrackId` of that track. This succeeds exactly when every one of those tracks has a third field. |
| Songs.ArtistSongsBound | getHotelUtah.py:149 | Every artist adds at most five ids. |
| Songs.SongListBound | getHotelUtah.py:143-149 | A night of `m` artists yields at most `5 * m` ids. |
| Songs.TrackIdsSpec | getHotelUtah.py:149 | Succeeds exactly when every uri has a third field. The result then has one id per uri, and the k-th id is the third field of the k-th uri. |
| Songs.TrackIdsFailurePersists | getHotelUtah.py:149 | A failure in a prefix of the uris is the result for the whole sequence. |
| Songs.TrackIdsFirstFailure | getHotelUtah.py:149 | If the k-th uri is the first without a third field, the sequence fails with `MalformedTrackUri` of that uri. |
| Songs.SongListFailurePersists | getHotelUtah.py:143-149 | A failure of the first m artists is the result for the whole night. |
| Songs.SongListFirstFailure | getHotelUtah.py:143-149 | If the first k artists succeed and artist k fails, the night's result is artist k's failure. |
| Songs.TrackIdOfThreeFields | getHotelUtah.py:149 | For a uri `a:b:id` whose parts contain no colon, the id is `id`. |
| Songs.TrackIdIgnoresLaterFields | getHotelUtah.py:149 | For `a:b:id:rest`, the id is `id`; fields after the third are ignored. |
| Songs.TrackIdTooFewFields | getHotelUtah.py:149 | A uri with at most one colon has no id. |
| Songs.TrackIdExample | getHotelUtah.py:149 | `spotify:track:6rqhFgbbKwnb9MLmUQDhG6` gives `6rqhFgbbKwnb9MLmUQDhG6`. |
| Songs.CleanNameDeletesAnnotation | getHotelUtah.py:144 | If the lower-cased name is `before + "(closing set)" + after`, the cleaned name is the two sides, each cleaned, joined. |
| Songs.CleanNameSplitsAtAnnotation | getHotelUtah.py:144 | The annotation is deleted in any letter case, because lower-casing comes first. The cleaned name is the cleaned `before` followed by the cleaned `after`. |
| Songs.CleanNameTrailingAnnotation | getHotelUtah.py:144 | A trailing annotation is deleted and nothing is trimmed: a lower-cased name `base + "(closing set)"`, where `base` holds no annotation of its own, becomes `base`. |
| Songs.CleanNameExample | getHotelUtah.py:144 | `DJ Shadow (closing set)` is cleaned to `dj shadow `, keeping the trailing space. |
| Songs.CleanNameKeepsPlainNames | getHotelUtah.py:144 | A name without the annotation is only lower-cased. |
| Songs.ClosingSetBorderless | getHotelUtah.py:144 | Two occurrences of `(closing set)` can never overlap. |
| Strings.RemoveAllAround | getHotelUtah.py:144 | For a pattern whose occurrences can never overlap, `re.sub` deletes an occurrence wherever it stands. The text on each side is processed independently. |
| Strings.RemoveAllAbsent | getHotelUtah.py:144 | `re.sub` leaves text without an occurrence of the pattern unchanged. |
| Strings.RemoveAll | getHotelUtah.py:144 | Deleting matches never lengthens the text. |
| Strings.JoinSplit | getHotelUtah.py:149 | Joining the fields of `split(':')` with `':'` gives back the uri. |
| Strings.SplitJoin | getHotelUtah.py:149 | Splitting a `':'`-join of colon-free fields gives back the fields. |
| Strings.SplitFieldsAreFree | getHotelUtah.py:149 | No field of `split(':')` contains a colon. |
| Strings.Split | getHotelUtah.py:149 | `split` always yields at least one field. |
| Strings.LowerAt | getHotelUtah.py:144 | Lower-casing maps each character independently. It leaves no upper-case ASCII letter and keeps every other character. |
| Strings.LowerIdempotent | getHotelUtah.py:108 | Lower-casing twice is lower-casing once, so an already lower-case catalog name is left as it is; `Songs.LastMatchExample` uses this for its `foo bar` candidate. |
| Strings.LowerAppend | getHotelUtah.py:144 | Lower-casing distributes over concatenation. |
| Message.BuildTextLayout | getHotelUtah.py:166-167 | With nights, the message is each night's `date:\n` paragraph followed by a blank line, then the link. Each paragraph has one artist per line. With no dates, the message is exactly `"\n\n" + link`. |
| Message.TerminatedNights | getHotelUtah.py:167 | Terminating each formatted night with a blank line gives the reference layout. |
| Message.JoinThenTail | getHotelUtah.py:166 | `sep.join(parts) + sep + tail` puts `sep` after every part and then `tail`. |
| Message.BuildTextEndsWithLink | getHotelUtah.py:166 | Every message ends with `"\n\n" + link`. |
| Message.BuildTextStartsWithFirstNight | getHotelUtah.py:166-167 | A message with dates starts with the first date, `":\n"`, and that night's first artist, if there is one. |
| Message.EmptyNight | getHotelUtah.py:167 | A night without artists contributes `date + ":\n"`. |
| Message.BuildTextIgnoresExtraArtists | getHotelUtah.py:167 | Artist lists beyond the last date are never read. |
| Message.BuildTextExample | getHotelUtah.py:166-167 | `["Fri"]`, `[["A","B"]]`, `http://x` give `Fri:\nA\nB\n\nhttp://x`. |

## Left out

- `getSched` (fetching the page with `urllib` and parsing it with BeautifulSoup): network and a foreign library. Its output is taken as a sequence of `Schedule.Block` records. `get_text()` is taken as already applied.
- `getCredentials`: a file read and `json.loads`.
- `sendText`: the Twilio SMS call.
- `create_playlist`: the Spotify token prompt and the playlist create, replace and add calls. It is service plumbing and re-fetches the schedule. The catalog calls that `build_song_list` makes are modelled as the function parameters `search` and `topTracks`.
- `getArtistLink`: never called, and it refers to an unimported `SpotifyClientCredentials`.
- `main` and the argument parsing: command-line wiring. Because of this, the end-to-end run (fetch, build, publish, text) is not modelled as one operation.
- Printing, network failures and authentication failures.
- `Strings.Lower` is ASCII-only lower-casing: it does not model Python's full Unicode case mapping.
- `Strings.RemoveAll` models `re.sub` only for a literal, non-empty pattern, which is the only way the script uses it.
- `Message.BuildText` treats dates and names as sequences of Unicode characters. It does not model the `UnicodeEncodeError` that Python 2 raises when a `unicode` date or name with a character of code 128 or above is formatted into the byte-string templates of lines 166-167. In that case the source sends no message.
- `Message.BuildText` requires at least as many artist lists as dates. It does not model the `IndexError` Python raises otherwise.
