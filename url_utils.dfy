/**
 * YouTube video-ID extraction and URL building (src/services/utils/urlUtils.ts).
 * Each regular expression of the source is a literal prefix followed by exactly
 * eleven ID characters, so it is modelled as a prefix search over the string.
 */
module UrlUtils {
  import opened Wrappers

  /** The character class `[a-zA-Z0-9_-]`. */
  predicate IsIdChar(c: char)
  {
    ('a' <= c <= 'z') || ('A' <= c <= 'Z') || ('0' <= c <= '9') || c == '_' || c == '-'
  }

  const IdLength: nat := 11

  /** `isValidYouTubeVideoId`: `/^[a-zA-Z0-9_-]{11}$/`; the empty string is rejected too. */
  predicate IsValidYouTubeVideoId(s: string)
  {
    |s| == IdLength && forall i :: 0 <= i < |s| ==> IsIdChar(s[i])
  }

  /** The characters `String.prototype.trim` removes: white space and line terminators. */
  predicate IsJsWhitespace(c: char)
  {
    || c == '\t' || c == '\n' || c == '\U{000B}' || c == '\U{000C}' || c == '\r' || c == ' '
    || c == '\U{00A0}' || c == '\U{1680}' || ('\U{2000}' <= c <= '\U{200A}')
    || c == '\U{2028}' || c == '\U{2029}' || c == '\U{202F}' || c == '\U{205F}'
    || c == '\U{3000}' || c == '\U{FEFF}'
  }

  predicate AllWhitespace(s: string)
  {
    forall i :: 0 <= i < |s| ==> IsJsWhitespace(s[i])
  }

  function TrimStart(s: string): string
  {
    if |s| > 0 && IsJsWhitespace(s[0]) then TrimStart(s[1..]) else s
  }

  function TrimEnd(s: string): string
  {
    if |s| > 0 && IsJsWhitespace(s[|s| - 1]) then TrimEnd(s[..|s| - 1]) else s
  }

  /** `s.trim()`. */
  function Trim(s: string): string
  {
    TrimEnd(TrimStart(s))
  }

  /** `TrimStart` drops exactly the leading white space. */
  lemma {:induction false} TrimStartSpec(s: string)
    ensures var r := TrimStart(s);
      && |r| <= |s| && r == s[|s| - |r|..] && AllWhitespace(s[..|s| - |r|])
      && (|r| == 0 || !IsJsWhitespace(r[0]))
  {
    if |s| > 0 && IsJsWhitespace(s[0]) {
      var r := TrimStart(s[1..]);
      TrimStartSpec(s[1..]);
      assert s[..|s| - |r|] == [s[0]] + s[1..][..|s| - 1 - |r|];
    }
  }

  /** `TrimEnd` drops exactly the trailing white space. */
  lemma {:induction false} TrimEndSpec(s: string)
    ensures var r := TrimEnd(s);
      && |r| <= |s| && r == s[..|r|] && AllWhitespace(s[|r|..])
      && (|r| == 0 || !IsJsWhitespace(r[|r| - 1]))
  {
    if |s| > 0 && IsJsWhitespace(s[|s| - 1]) {
      var r := TrimEnd(s[..|s| - 1]);
      TrimEndSpec(s[..|s| - 1]);
      assert s[|r|..] == s[..|s| - 1][|r|..] + [s[|s| - 1]];
    }
  }

  /**
   * `Trim(s)` is the part of `s` between a white-space prefix and a white-space
   * suffix, and it neither starts nor ends with white space.
   */
  lemma TrimSpec(s: string)
    ensures var r := Trim(s);
      && (|r| == 0 || (!IsJsWhitespace(r[0]) && !IsJsWhitespace(r[|r| - 1])))
      && exists i :: (0 <= i <= |s| - |r| && r == s[i..i + |r|]
                      && AllWhitespace(s[..i]) && AllWhitespace(s[i + |r|..]))
  {
    var t := TrimStart(s);
    var r := TrimEnd(t);
    TrimStartSpec(s);
    TrimEndSpec(t);
    var i := |s| - |t|;
    assert r == s[i..i + |r|];
    assert s[i + |r|..] == t[|r|..];
  }

  /** A string without white space at either end is its own trim. */
  lemma TrimmedIsFixed(s: string)
    requires |s| == 0 || (!IsJsWhitespace(s[0]) && !IsJsWhitespace(s[|s| - 1]))
    ensures Trim(s) == s
  {
  }

  /** Trimming twice is trimming once. */
  lemma TrimIdempotent(s: string)
    ensures Trim(Trim(s)) == Trim(s)
  {
    TrimSpec(s);
    TrimmedIsFixed(Trim(s));
  }

  /** Eleven ID characters start at index `k`. */
  predicate IdAt(s: string, k: nat)
  {
    k + IdLength <= |s| && forall i :: k <= i < k + IdLength ==> IsIdChar(s[i])
  }

  /** The literal `prefix` occurs at index `j` and is followed by eleven ID characters. */
  predicate MatchAt(s: string, prefix: string, j: nat)
  {
    j + |prefix| <= |s| && s[j..j + |prefix|] == prefix && IdAt(s, j + |prefix|)
  }

  /** The leftmost index from `j` on where `prefix` plus an ID matches, as a regex search finds it. */
  function FindFrom(s: string, prefix: string, j: nat): (r: Option<nat>)
    requires j <= |s|
    ensures r.Some? ==> j <= r.value && MatchAt(s, prefix, r.value)
    ensures r.Some? ==> forall k :: j <= k < r.value ==> !MatchAt(s, prefix, k)
    ensures r.None? ==> forall k :: j <= k ==> !MatchAt(s, prefix, k)
    decreases |s| - j
  {
    if j + |prefix| + IdLength > |s| then None
    else if MatchAt(s, prefix, j) then Some(j)
    else FindFrom(s, prefix, j + 1)
  }

  /** The five patterns of `extractYouTubeVideoId`: four unanchored prefixes and the bare ID. */
  datatype Pattern = Prefixed(prefix: string) | BareId

  const Patterns: seq<Pattern> := [
    Prefixed("youtube.com/watch?v="),
    Prefixed("youtu.be/"),
    Prefixed("youtube.com/embed/"),
    Prefixed("m.youtube.com/watch?v="),
    BareId
  ]

  /** The first capture group of `pattern` on `s`, if the pattern matches. */
  function MatchPattern(s: string, pattern: Pattern): (r: Option<string>)
    ensures r.Some? ==> IsValidYouTubeVideoId(r.value)
  {
    match pattern
    case BareId => if IsValidYouTubeVideoId(s) then Some(s) else None
    case Prefixed(p) =>
      match FindFrom(s, p, 0)
      case None => None
      case Some(j) => Some(s[j + |p|..j + |p| + IdLength])
  }

  /** The capture of the first pattern in `patterns` that matches `s`. */
  function FirstMatch(s: string, patterns: seq<Pattern>): (r: Option<string>)
    ensures r.Some? ==> IsValidYouTubeVideoId(r.value)
  {
    if patterns == [] then None
    else
      match MatchPattern(s, patterns[0])
      case Some(id) => Some(id)
      case None => FirstMatch(s, patterns[1..])
  }

  /**
   * Patterns are tried in order: the result is the capture of the first pattern
   * that matches, and there is none exactly when no pattern matches.
   */
  lemma {:induction false} FirstMatchOrder(s: string, patterns: seq<Pattern>)
    ensures FirstMatch(s, patterns).None? <==> forall k :: 0 <= k < |patterns| ==> MatchPattern(s, patterns[k]).None?
    ensures FirstMatch(s, patterns).Some? ==>
      exists k :: (0 <= k < |patterns| && FirstMatch(s, patterns) == MatchPattern(s, patterns[k])
                   && forall i :: 0 <= i < k ==> MatchPattern(s, patterns[i]).None?)
  {
    if patterns != [] && MatchPattern(s, patterns[0]).None? {
      var rest := patterns[1..];
      FirstMatchOrder(s, rest);
      assert forall k :: 1 <= k < |patterns| ==> patterns[k] == rest[k - 1];
      if FirstMatch(s, rest).Some? {
        var k :| (0 <= k < |rest| && FirstMatch(s, rest) == MatchPattern(s, rest[k])
                  && forall i :: 0 <= i < k ==> MatchPattern(s, rest[i]).None?);
        assert FirstMatch(s, patterns) == MatchPattern(s, patterns[k + 1]);
      }
    }
  }

  /** `extractYouTubeVideoId`: the ID in a watch, short, embed or mobile URL, or a bare ID. */
  function ExtractYouTubeVideoId(url: string): (r: Option<string>)
    ensures |url| == 0 ==> r == None
    ensures r.Some? ==> IsValidYouTubeVideoId(r.value)
  {
    if |url| == 0 then None else FirstMatch(Trim(url), Patterns)
  }

  /** A pattern that does not match can be dropped from the list without changing the result. */
  lemma {:induction false} FirstMatchSkip(s: string, patterns: seq<Pattern>, k: nat)
    requires k < |patterns| && MatchPattern(s, patterns[k]).None?
    ensures FirstMatch(s, patterns) == FirstMatch(s, patterns[..k] + patterns[k + 1..])
  {
    var rest := patterns[..k] + patterns[k + 1..];
    if k == 0 {
      assert rest == patterns[1..];
    } else {
      assert rest[0] == patterns[0];
      if MatchPattern(s, patterns[0]).None? {
        FirstMatchSkip(s, patterns[1..], k - 1);
        assert rest[1..] == patterns[1..][..k - 1] + patterns[1..][k..];
      }
    }
  }

  const WatchPrefix: string := "youtube.com/watch?v="
  const MobilePrefix: string := "m.youtube.com/watch?v="

  /** Wherever the mobile pattern matches, the watch pattern matches two characters later. */
  lemma MobileImpliesWatch(s: string)
    requires MatchPattern(s, Prefixed(MobilePrefix)).Some?
    ensures MatchPattern(s, Prefixed(WatchPrefix)).Some?
  {
    var j := FindFrom(s, MobilePrefix, 0).value;
    assert MobilePrefix[2..] == WatchPrefix;
    SuffixMatch(s, MobilePrefix, j, 2);
  }

  /** Where `p` plus an ID matches, so does every suffix of `p`, further on. */
  lemma SuffixMatch(s: string, p: string, j: nat, d: nat)
    requires d <= |p| && MatchAt(s, p, j)
    ensures MatchAt(s, p[d..], j + d)
  {
    assert s[j + d..j + |p|] == s[j..j + |p|][d..];
  }

  /**
   * The mobile pattern never decides the result: every string it matches is
   * matched by the watch pattern, which is tried first.
   */
  lemma MobilePatternRedundant(s: string)
    ensures FirstMatch(s, Patterns) == FirstMatch(s, Patterns[..3] + Patterns[4..])
  {
    if MatchPattern(s, Patterns[0]).None? {
      if MatchPattern(s, Patterns[3]).Some? {
        MobileImpliesWatch(s);
      }
      FirstMatchSkip(s, Patterns, 3);
    } else {
      assert (Patterns[..3] + Patterns[4..])[0] == Patterns[0];
    }
  }

  /** A prefix holding a character outside the ID class never occurs in a string of ID characters. */
  lemma NoPrefixInId(t: string, p: string, d: nat)
    requires forall i :: 0 <= i < |t| ==> IsIdChar(t[i])
    requires d < |p| && !IsIdChar(p[d])
    ensures FindFrom(t, p, 0).None?
  {
    forall k: nat ensures !MatchAt(t, p, k) {
      if k + |p| <= |t| {
        assert t[k..k + |p|][d] == t[k + d];
      }
    }
  }

  /** A valid ID, with or without surrounding white space, extracts to itself. */
  lemma ValidIdExtractsToItself(url: string)
    requires IsValidYouTubeVideoId(Trim(url))
    ensures ExtractYouTubeVideoId(url) == Some(Trim(url))
  {
    var t := Trim(url);
    NoPrefixInId(t, Patterns[0].prefix, 7);
    NoPrefixInId(t, Patterns[1].prefix, 5);
    NoPrefixInId(t, Patterns[2].prefix, 7);
    NoPrefixInId(t, Patterns[3].prefix, 1);
    assert FirstMatch(t, Patterns) == FirstMatch(t, Patterns[1..]);
    assert FirstMatch(t, Patterns[1..]) == FirstMatch(t, Patterns[2..]);
    assert FirstMatch(t, Patterns[2..]) == FirstMatch(t, Patterns[3..]);
    assert FirstMatch(t, Patterns[3..]) == FirstMatch(t, Patterns[4..]);
    assert MatchPattern(t, Patterns[4]) == Some(t);
  }

  datatype UrlError = InvalidVideoId

  const WatchUrlPrefix: string := "https://www." + WatchPrefix

  /** `buildYouTubeWatchUrl`: fails on an invalid ID. */
  function BuildYouTubeWatchUrl(videoId: string): (r: Result<string, UrlError>)
    ensures r.Failure? <==> !IsValidYouTubeVideoId(videoId)
    ensures r.Success? ==> r.value == WatchUrlPrefix + videoId
  {
    if !IsValidYouTubeVideoId(videoId) then Failure(InvalidVideoId)
    else Success(WatchUrlPrefix + videoId)
  }

  /** An ID right after the only occurrence of `p[0]` is found by the search for `p`. */
  lemma PrefixedIdFound(h: string, p: string, id: string)
    requires IsValidYouTubeVideoId(id) && |p| > 0 && p[0] !in h
    ensures FindFrom(h + p + id, p, 0) == Some(|h|)
  {
    var u := h + p + id;
    assert u[|h|..|h| + |p|] == p;
    assert MatchAt(u, p, |h|) by {
      forall i | |h| + |p| <= i < |h| + |p| + IdLength ensures IsIdChar(u[i]) {
        assert u[i] == id[i - |h| - |p|];
      }
    }
    forall k | 0 <= k < |h| ensures !MatchAt(u, p, k) {
      assert u[k] == h[k];
      if k + |p| <= |u| {
        assert u[k..k + |p|][0] == u[k];
      }
    }
  }

  lemma WatchHostHasNoY()
    ensures WatchPrefix[0] !in "https://www."
  {
    var h := "https://www.";
    assert forall i :: 0 <= i < |h| ==> h[i] != 'y';
  }

  /** Extracting the ID from a built watch URL gives the ID back. */
  lemma WatchUrlRoundTrip(videoId: string)
    requires IsValidYouTubeVideoId(videoId)
    ensures BuildYouTubeWatchUrl(videoId).Success?
    ensures ExtractYouTubeVideoId(BuildYouTubeWatchUrl(videoId).value) == Some(videoId)
  {
    WatchUrlTrimmed(videoId);
    WatchUrlMatchesWatchPattern(videoId);
    ExtractByFirstPattern(WatchUrlPrefix + videoId, videoId);
  }

  lemma ExtractByFirstPattern(u: string, id: string)
    requires |u| > 0 && Trim(u) == u && MatchPattern(u, Patterns[0]) == Some(id)
    ensures ExtractYouTubeVideoId(u) == Some(id)
  {
  }

  lemma WatchUrlTrimmed(videoId: string)
    requires IsValidYouTubeVideoId(videoId)
    ensures Trim(WatchUrlPrefix + videoId) == WatchUrlPrefix + videoId
  {
    var u := WatchUrlPrefix + videoId;
    assert u[|u| - 1] == videoId[10];
    assert u[0] == 'h';
    TrimmedIsFixed(u);
  }

  lemma WatchUrlMatchesWatchPattern(videoId: string)
    requires IsValidYouTubeVideoId(videoId)
    ensures MatchPattern(WatchUrlPrefix + videoId, Patterns[0]) == Some(videoId)
  {
    var h := "https://www.";
    var u := WatchUrlPrefix + videoId;
    assert u == h + WatchPrefix + videoId;
    WatchHostHasNoY();
    PrefixedIdFound(h, WatchPrefix, videoId);
    var n := |h| + |WatchPrefix|;
    assert u[n..n + IdLength] == videoId;
  }

  /** The options of `buildYouTubeThumbnailUrl`'s `quality` parameter. */
  datatype ThumbnailQuality = Default | Medium | High | Standard | Maxres

  function ThumbnailFile(quality: ThumbnailQuality): string
  {
    match quality
    case Default => "default.jpg"
    case Medium => "mqdefault.jpg"
    case High => "hqdefault.jpg"
    case Standard => "sddefault.jpg"
    case Maxres => "maxresdefault.jpg"
  }

  const ThumbnailHost: string := "https://img.youtube.com/vi/"

  /** `buildYouTubeThumbnailUrl`: fails on an invalid ID; the quality defaults to `high`. */
  function BuildYouTubeThumbnailUrl(videoId: string, quality: ThumbnailQuality := High): (r: Result<string, UrlError>)
    ensures r.Failure? <==> !IsValidYouTubeVideoId(videoId)
    ensures r.Success? ==> r.value == ThumbnailHost + videoId + "/" + ThumbnailFile(quality)
  {
    if !IsValidYouTubeVideoId(videoId) then Failure(InvalidVideoId)
    else Success(ThumbnailHost + videoId + "/" + ThumbnailFile(quality))
  }

  /** Without a quality argument the thumbnail is the high-quality one. */
  lemma ThumbnailDefaultIsHigh(videoId: string)
    requires IsValidYouTubeVideoId(videoId)
    ensures BuildYouTubeThumbnailUrl(videoId) == Success(ThumbnailHost + videoId + "/hqdefault.jpg")
  {
    assert ThumbnailHost + videoId + "/" + "hqdefault.jpg" == ThumbnailHost + videoId + "/hqdefault.jpg";
  }

  /** Different (ID, quality) pairs give different thumbnail URLs. */
  lemma ThumbnailUrlDeterminesArguments(id1: string, q1: ThumbnailQuality, id2: string, q2: ThumbnailQuality)
    requires IsValidYouTubeVideoId(id1) && IsValidYouTubeVideoId(id2)
    requires BuildYouTubeThumbnailUrl(id1, q1) == BuildYouTubeThumbnailUrl(id2, q2)
    ensures id1 == id2 && q1 == q2
  {
    var u1 := BuildYouTubeThumbnailUrl(id1, q1).value;
    var n := |ThumbnailHost|;
    assert id1 == u1[n..n + IdLength];
    assert id2 == u1[n..n + IdLength];
    assert ThumbnailFile(q1) == u1[n + IdLength + 1..] == ThumbnailFile(q2);
    assert ThumbnailFile(q1)[..2] == ThumbnailFile(q2)[..2];
  }

  const TranscriptionPath: string := "/transcription/"

  /**
   * `buildTranscriptionUrl`: fails on an invalid ID; a missing or empty language
   * adds no query. `encode` stands for `encodeURIComponent`.
   */
  function BuildTranscriptionUrl(videoId: string, language: Option<string>, encode: string -> string): (r: Result<string, UrlError>)
    ensures r.Failure? <==> !IsValidYouTubeVideoId(videoId)
    ensures r.Success? && (language.None? || language.value == []) ==> r.value == TranscriptionPath + videoId
    ensures r.Success? && language.Some? && language.value != [] ==>
      r.value == TranscriptionPath + videoId + "?lang=" + encode(language.value)
  {
    if !IsValidYouTubeVideoId(videoId) then Failure(InvalidVideoId)
    else
      var url := TranscriptionPath + videoId;
      if language.Some? && language.value != [] then Success(url + "?lang=" + encode(language.value))
      else Success(url)
  }

  /** The URL carries a query exactly when a non-empty language is given, and always starts with the page path. */
  lemma TranscriptionUrlQuery(videoId: string, language: Option<string>, encode: string -> string)
    requires IsValidYouTubeVideoId(videoId)
    ensures var u := BuildTranscriptionUrl(videoId, language, encode).value;
      && u[..|TranscriptionPath| + IdLength] == TranscriptionPath + videoId
      && ('?' in u <==> language.Some? && language.value != [])
  {
    var path := TranscriptionPath + videoId;
    var u := BuildTranscriptionUrl(videoId, language, encode).value;
    assert '?' !in path by {
      forall i | 0 <= i < |path| ensures path[i] != '?' {
        if i >= |TranscriptionPath| { assert path[i] == videoId[i - |TranscriptionPath|]; }
      }
    }
    if language.Some? && language.value != [] {
      assert u[|path|] == '?';
    }
  }
}
