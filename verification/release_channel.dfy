/**
 * Release channels (config/release_channel.go): the JSON decoder that accepts
 * exactly the three channel names, and the directory a channel's install lives in.
 */
module ReleaseChannel {
  import opened Results
  import opened Strs
  import GoPath

  /** ReleaseChannel is a string type; these are its three named values. */
  const Stable := "stable"
  const Beta := "beta"
  const Nightly := "nightly"

  predicate Known(channel: string) {
    channel == Stable || channel == Beta || channel == Nightly
  }

  /** The JSON text of a channel name: the name in double quotes. */
  function Quoted(channel: string): string {
    "\"" + channel + "\""
  }

  /**
   * UnmarshalJSON: the raw JSON text must be one of the three quoted names,
   * byte for byte. Any other text is an error and the channel keeps its value.
   * The result is the channel after the call and the error, if any.
   */
  function Unmarshal(buf: string, channel: string): (r: (string, Option<string>))
    ensures r.1.None? ==> Known(r.0) && buf == Quoted(r.0)
    ensures r.1.Some? ==> r.0 == channel
  {
    if buf == "\"stable\"" then (Stable, None)
    else if buf == "\"beta\"" then (Beta, None)
    else if buf == "\"nightly\"" then (Nightly, None)
    else (channel, Some("invalid release channel: '" + buf + "'"))
  }

  /** Decoding accepts exactly the quoted channel names and yields the channel named. */
  lemma UnmarshalIff(buf: string, channel: string)
    ensures Unmarshal(buf, channel).1.None? <==> exists c :: Known(c) && buf == Quoted(c)
  {
    if exists c :: Known(c) && buf == Quoted(c) {
      var c :| Known(c) && buf == Quoted(c);
      assert c == Stable || c == Beta || c == Nightly;
    }
  }

  /** Encoding a known channel as a JSON string and decoding it gives the channel back. */
  lemma UnmarshalQuoted(c: string, channel: string)
    requires Known(c)
    ensures Unmarshal(Quoted(c), channel) == (c, None)
  {
  }

  /** Distinct accepted texts decode to distinct channels. */
  lemma UnmarshalInjective(buf1: string, buf2: string, channel: string)
    requires Unmarshal(buf1, channel).1.None? && Unmarshal(buf2, channel).1.None?
    requires buf1 != buf2
    ensures Unmarshal(buf1, channel).0 != Unmarshal(buf2, channel).0
  {
  }

  /** Unquoted, differently cased or padded names are refused. */
  lemma UnmarshalRejects(channel: string)
    ensures Unmarshal("stable", channel).1.Some? && Unmarshal("stable", channel).0 == channel
    ensures Unmarshal("\"Stable\"", channel).1.Some?
    ensures Unmarshal(" \"beta\"", channel).1.Some?
  {
    assert |"stable"| != |"\"stable\""|;
    assert "stable"[0] != "\"beta\""[0] && "stable"[0] != "\"nightly\""[0];
  }

  /** GetPath: the channel's directory under the robin home directory. */
  function GetPath(robinPath: string, channel: string): (r: string)
    requires Known(channel)
    ensures GoPath.Base(r) == channel
  {
    PlainChannel(channel);
    if robinPath == "" then
      GoPath.CleanPlainJoin([channel]);
      GoPath.BaseOfName(channel);
      JoinOfEmptyHead(channel);
      GoPath.Join([robinPath, channel])
    else
      GoPath.JoinPair(robinPath, channel);
      GoPath.BaseAfterJoin(robinPath, channel);
      GoPath.Join([robinPath, channel])
  }

  lemma PlainChannel(channel: string)
    requires Known(channel)
    ensures GoPath.Plain(channel)
  {
  }

  lemma JoinOfEmptyHead(name: string)
    requires name != ""
    ensures GoPath.Join(["", name]) == GoPath.Clean(name)
  {
    assert GoPath.JoinBuffer(["", name], "") == GoPath.JoinBuffer([name], "");
    assert GoPath.JoinBuffer([name], "") == GoPath.JoinBuffer([], name);
  }

  /** Channels live in sibling directories: the path under an absolute home is that home, '/', the channel. */
  lemma GetPathUnderHome(robinPath: string, channel: string)
    requires Known(channel) && robinPath != ""
    ensures GetPath(robinPath, channel) == GoPath.Clean(robinPath + "/" + channel)
  {
    GoPath.JoinPair(robinPath, channel);
  }
}
