/**
 * The message composer `buildText`: each show night as its date, a colon
 * and one artist per line, nights separated by blank lines, and the
 * playlist link after a final blank line.
 */
module Message {
  import opened Strings

  /** `"{}:\n{}".format(date, '\n'.join(names))`: one night's paragraph. */
  function Night(date: string, names: seq<string>): string
  {
    date + ":\n" + Join("\n", names)
  }

  /**
   * `buildText(artists, dates, playlist_link)`. Only the first `|dates|`
   * artist lists are read; the source indexes `artists[i]` for every date.
   */
  function BuildText(artists: seq<seq<string>>, dates: seq<string>, playlistLink: string): string
    requires |artists| >= |dates|
  {
    Join("\n\n", Nights(artists, dates)) + "\n\n" + playlistLink
  }

  /** Reference layout: every night's paragraph followed by a blank line, one after the other. */
  function Paragraphs(artists: seq<seq<string>>, dates: seq<string>): string
    requires |artists| >= |dates|
    decreases |dates|
  {
    if dates == [] then "" else Night(dates[0], artists[0]) + "\n\n" + Paragraphs(artists[1..], dates[1..])
  }

  /** `sep.join(parts) + sep + tail` puts `sep` after every part and then `tail`. */
  lemma {:induction false} JoinThenTail(sep: string, parts: seq<string>, tail: string)
    requires |parts| > 0
    ensures Join(sep, parts) + sep + tail == Terminated(sep, parts) + tail
    decreases |parts|
  {
    if |parts| > 1 {
      JoinThenTail(sep, parts[1..], tail);
      calc {
        Join(sep, parts) + sep + tail;
        parts[0] + sep + (Join(sep, parts[1..]) + sep + tail);
        parts[0] + sep + (Terminated(sep, parts[1..]) + tail);
        Terminated(sep, parts) + tail;
      }
    } else {
      assert parts[1..] == [];
    }
  }

  /** Every part followed by `sep`. */
  function Terminated(sep: string, parts: seq<string>): string
    decreases |parts|
  {
    if parts == [] then "" else parts[0] + sep + Terminated(sep, parts[1..])
  }

  /** The paragraphs of the message, one per date. */
  function Nights(artists: seq<seq<string>>, dates: seq<string>): (ns: seq<string>)
    requires |artists| >= |dates|
    ensures |ns| == |dates|
  {
    seq(|dates|, i requires 0 <= i < |dates| => Night(dates[i], artists[i]))
  }

  /** Terminating the nights' paragraphs is the reference layout. */
  lemma {:induction false} TerminatedNights(artists: seq<seq<string>>, dates: seq<string>)
    requires |artists| >= |dates|
    ensures Terminated("\n\n", Nights(artists, dates)) == Paragraphs(artists, dates)
    decreases |dates|
  {
    if dates != [] {
      assert Nights(artists, dates)[1..] == Nights(artists[1..], dates[1..]);
      TerminatedNights(artists[1..], dates[1..]);
    }
  }

  /**
   * The message is every night's paragraph followed by a blank line, then
   * the link; with no nights at all it is still a blank line and the link.
   */
  lemma BuildTextLayout(artists: seq<seq<string>>, dates: seq<string>, playlistLink: string)
    requires |artists| >= |dates|
    ensures dates == [] ==> BuildText(artists, dates, playlistLink) == "\n\n" + playlistLink
    ensures dates != [] ==> BuildText(artists, dates, playlistLink) == Paragraphs(artists, dates) + playlistLink
  {
    if dates != [] {
      JoinThenTail("\n\n", Nights(artists, dates), playlistLink);
      TerminatedNights(artists, dates);
    }
  }

  /** The message always ends with a blank line and the playlist link. */
  lemma BuildTextEndsWithLink(artists: seq<seq<string>>, dates: seq<string>, playlistLink: string)
    requires |artists| >= |dates|
    ensures |BuildText(artists, dates, playlistLink)| >= |playlistLink| + 2
    ensures BuildText(artists, dates, playlistLink)[|BuildText(artists, dates, playlistLink)| - |playlistLink| - 2..] == "\n\n" + playlistLink
  {
  }

  /** The message starts with the first date and a colon, then that night's first artist, if any. */
  lemma BuildTextStartsWithFirstNight(artists: seq<seq<string>>, dates: seq<string>, playlistLink: string)
    requires |artists| >= |dates| > 0
    ensures var text := BuildText(artists, dates, playlistLink);
      var head := dates[0] + ":\n" + (if artists[0] == [] then "" else artists[0][0]);
      |text| >= |head| && text[..|head|] == head
  {
  }

  /** A night without artists contributes just its date and a colon. */
  lemma EmptyNight(date: string)
    ensures Night(date, []) == date + ":\n"
  {
  }

  /** Artist lists beyond the last date are never read. */
  lemma {:induction false} BuildTextIgnoresExtraArtists(artists: seq<seq<string>>, dates: seq<string>, playlistLink: string)
    requires |artists| >= |dates|
    ensures BuildText(artists, dates, playlistLink) == BuildText(artists[..|dates|], dates, playlistLink)
  {
    assert Nights(artists, dates) == Nights(artists[..|dates|], dates);
  }

  /** One Friday with two artists. */
  lemma BuildTextExample()
    ensures BuildText([["A", "B"]], ["Fri"], "http://x") == "Fri:\nA\nB\n\nhttp://x"
  {
  }
}
