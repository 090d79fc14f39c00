/** The addresses of the text-to-speech server's three endpoints, built
    from the server text the user typed, and how a server splits such an
    address back into a path and query parameters. */
module Endpoints {
  import opened Wrappers
  import opened Text

  /** The server text the form starts with. */
  const DefaultServer: string := "http://localhost:10101"

  /** `TrimEnd('/')` of the server text: every trailing slash removed. */
  function BaseUrl(server: string): (b: string)
    ensures |b| <= |server| && b == server[..|b|]
    ensures forall i :: |b| <= i < |server| ==> server[i] == '/'
    ensures b == [] || b[|b| - 1] != '/'
  {
    TrimEndBy(server, {'/'})
  }

  /** Taking the base of a base changes nothing. */
  lemma BaseUrlIdempotent(server: string)
    ensures BaseUrl(BaseUrl(server)) == BaseUrl(server)
  {
    TrimEndByIdempotent(server, {'/'});
  }

  /** The base is empty exactly when the server text is empty or all slashes. */
  lemma BaseUrlEmptyIff(server: string)
    ensures BaseUrl(server) == [] <==> forall i :: 0 <= i < |server| ==> server[i] == '/'
  {
    if BaseUrl(server) != [] {
      var b := BaseUrl(server);
      assert server[|b| - 1] == b[|b| - 1];
    }
  }

  /** The catalog request: `{base}/speakers`. */
  function SpeakersUrl(base: string): string
  {
    base + "/speakers"
  }

  /** The first synthesis step: `{base}/audio_query?text={esc(text)}&speaker={id}`,
      where `esc` is the runtime's percent-encoding of a query value. */
  function QueryUrl(base: string, esc: string -> string, text: string, speaker: int): string
  {
    base + "/audio_query?text=" + esc(text) + "&speaker=" + Decimal(speaker)
  }

  /** The second synthesis step: `{base}/synthesis?speaker={id}`. */
  function SynthesisUrl(base: string, speaker: int): string
  {
    base + "/synthesis?speaker=" + Decimal(speaker)
  }

  /** A request target as a server reads it: the path, then the parameters
      as key/value pairs, in order. */
  datatype Target = Target(path: string, query: seq<(string, string)>)

  function Param(segment: string): (string, string)
  {
    match SplitFirst(segment, '=')
    case (key, None) => (key, "")
    case (key, Some(value)) => (key, value)
  }

  function Params(query: string): seq<(string, string)>
  {
    var segments := Segments(query, '&');
    seq(|segments|, k requires 0 <= k < |segments| => Param(segments[k]))
  }

  /** What is sent, split: the path before the first `?`, then the
      `&`-separated parameters, each split at its first `=`. */
  function ParseRequest(sent: string): Target
  {
    match SplitFirst(sent, '?')
    case (path, None) => Target(path, [])
    case (path, Some(query)) => Target(path, Params(query))
  }

  /** An address as a server reads it: a fragment, from the first `#` on,
      is never sent. */
  function ParseTarget(url: string): Target
  {
    ParseRequest(SplitFirst(url, '#').0)
  }

  /** An address without `#` is sent whole. */
  lemma NoFragment(url: string)
    requires '#' !in url
    ensures ParseTarget(url) == ParseRequest(url)
  {
    SplitFirstAbsent(url, '#');
  }

  lemma DecimalHasNoDelimiter(n: int)
    ensures '&' !in Decimal(n) && '?' !in Decimal(n) && '=' !in Decimal(n) && '#' !in Decimal(n)
  {
    var d := Decimal(n);
    forall i | 0 <= i < |d| ensures d[i] != '&' && d[i] != '?' && d[i] != '=' && d[i] != '#' {
    }
  }

  /** A parameter `key=value` whose key has no `=` reads back as the pair. */
  lemma ParamJoin(key: string, value: string)
    requires '=' !in key
    ensures Param(key + "=" + value) == (key, value)
  {
    SplitFirstJoin(key, '=', value);
  }

  /** A target with no `?` in its path splits there. */
  lemma TargetJoin(path: string, query: string)
    requires '?' !in path
    ensures ParseRequest(path + "?" + query) == Target(path, Params(query))
  {
    SplitFirstJoin(path, '?', query);
  }

  lemma ParamsSingle(segment: string)
    requires '&' !in segment
    ensures Params(segment) == [Param(segment)]
  {
    SplitFirstAbsent(segment, '&');
  }

  lemma ParamsCons(first: string, rest: string)
    requires '&' !in first
    ensures Params(first + "&" + rest) == [Param(first)] + Params(rest)
  {
    SplitFirstJoin(first, '&', rest);
    var all := Segments(first + "&" + rest, '&');
    assert all == [first] + Segments(rest, '&');
    var lhs := Params(first + "&" + rest);
    var rhs := [Param(first)] + Params(rest);
    assert |lhs| == |rhs|;
    forall k | 0 <= k < |lhs| ensures lhs[k] == rhs[k] {
      if k > 0 {
        assert all[k] == Segments(rest, '&')[k - 1];
      }
    }
  }

  /** The catalog address has the catalog path and no parameters. */
  lemma SpeakersTarget(base: string)
    requires '?' !in base && '#' !in base
    ensures ParseTarget(SpeakersUrl(base)) == Target(base + "/speakers", [])
  {
    NoFragment(SpeakersUrl(base));
    SplitFirstAbsent(SpeakersUrl(base), '?');
  }

  lemma {:induction false} TextSpeakerTarget(path: string, e: string, d: string)
    requires '?' !in path && '&' !in e && '&' !in d
    ensures ParseRequest(path + "?text=" + e + "&speaker=" + d)
         == Target(path, [("text", e), ("speaker", d)])
  {
    var first := "text" + "=" + e;
    var second := "speaker" + "=" + d;
    var query := first + "&" + second;
    assert path + "?text=" + e + "&speaker=" + d == path + "?" + query;
    TargetJoin(path, query);
    assert '&' !in first && '&' !in second;
    ParamsCons(first, second);
    ParamsSingle(second);
    ParamJoin("text", e);
    ParamJoin("speaker", d);
  }

  /** The server reads the query address as the `audio_query` path with
      exactly two parameters: `text`, carrying the encoded text unchanged,
      and `speaker`, carrying a number that reads back as the style id. The
      encoding is assumed to leave no `&` and no `#` in its output, as
      percent-encoding does. */
  lemma {:induction false} QueryTarget(base: string, esc: string -> string, text: string, speaker: int)
    requires '?' !in base && '#' !in base && '&' !in esc(text) && '#' !in esc(text)
    ensures ParseTarget(QueryUrl(base, esc, text, speaker))
         == Target(base + "/audio_query", [("text", esc(text)), ("speaker", Decimal(speaker))])
    ensures ParseDecimal(Decimal(speaker)) == Some(speaker)
  {
    var path := base + "/audio_query";
    assert QueryUrl(base, esc, text, speaker) == path + "?text=" + esc(text) + "&speaker=" + Decimal(speaker);
    assert '?' !in path;
    DecimalHasNoDelimiter(speaker);
    NoFragment(QueryUrl(base, esc, text, speaker));
    TextSpeakerTarget(path, esc(text), Decimal(speaker));
    DecimalRoundTrip(speaker);
  }

  /** The server reads the synthesis address as the `synthesis` path with
      the single parameter `speaker`, which reads back as the style id. */
  lemma {:induction false} SynthesisTarget(base: string, speaker: int)
    requires '?' !in base && '#' !in base
    ensures ParseTarget(SynthesisUrl(base, speaker))
         == Target(base + "/synthesis", [("speaker", Decimal(speaker))])
    ensures ParseDecimal(Decimal(speaker)) == Some(speaker)
  {
    var path := base + "/synthesis";
    assert SynthesisUrl(base, speaker) == path + "?speaker=" + Decimal(speaker);
    assert '?' !in path;
    DecimalHasNoDelimiter(speaker);
    NoFragment(SynthesisUrl(base, speaker));
    SpeakerTarget(path, Decimal(speaker));
    DecimalRoundTrip(speaker);
  }

  lemma {:induction false} SpeakerTarget(path: string, d: string)
    requires '?' !in path && '&' !in d
    ensures ParseRequest(path + "?speaker=" + d) == Target(path, [("speaker", d)])
  {
    var query := "speaker" + "=" + d;
    assert path + "?speaker=" + d == path + "?" + query;
    TargetJoin(path, query);
    assert '&' !in query;
    ParamsSingle(query);
    ParamJoin("speaker", d);
  }

}
