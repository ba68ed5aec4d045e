/**
 * The custom rules of the studio's `post` document: the "required when
 * published" validator, the slug generator, the YouTube-link validator and
 * the list preview.
 */
module StudioPost {
  import opened Wrappers
  import opened JsText
  import opened WebUrl
  import opened YouTube
  import opened StudioValues

  // requireWhenPublished

  /**
   * `requireWhenPublished(message)(value, context)`, with `publishedAt` the
   * document's `publishedAt` (`undefined` when there is no document).
   */
  function RequireWhenPublished(message: string, value: JsValue, publishedAt: JsValue): (r: Validation)
    ensures !Truthy(publishedAt) ==> r == Valid
    ensures r.Invalid? ==> r.message == message
    ensures Truthy(publishedAt) && value.Arr? ==> (r == Valid <==> |value.elems| > 0)
    ensures Truthy(publishedAt) && value.Str? ==>
      (r == Valid <==> exists i :: 0 <= i < |value.s| && !IsWhitespace(value.s[i]))
    ensures Truthy(publishedAt) && !value.Arr? && !value.Str? ==> (r == Valid <==> Truthy(value))
  {
    if !Truthy(publishedAt) then Valid
    else
      match value
      case Arr(elems) => if |elems| > 0 then Valid else Invalid(message)
      case Str(s) =>
        TrimEmptyIff(s);
        if |Trim(s)| > 0 then Valid else Invalid(message)
      case _ => if Truthy(value) then Valid else Invalid(message)
  }

  // slugify

  /** `\w` in a regular expression without the `u` flag: `[A-Za-z0-9_]`. */
  predicate IsWordChar(c: char)
  {
    'a' <= c <= 'z' || 'A' <= c <= 'Z' || '0' <= c <= '9' || c == '_'
  }

  /** A character a slug may hold: `[a-z0-9_-]`. */
  predicate IsSlugChar(c: char)
  {
    'a' <= c <= 'z' || '0' <= c <= '9' || c == '_' || c == '-'
  }

  predicate NoUpper(s: string)
  {
    forall i :: 0 <= i < |s| ==> !('A' <= s[i] <= 'Z')
  }

  predicate NoDoubleDash(s: string)
  {
    forall i :: 0 <= i < |s| - 1 ==> !(s[i] == '-' && s[i + 1] == '-')
  }

  /** Only `[a-z0-9_-]`, no `-` at either end and no `--`. */
  predicate IsSlug(t: string)
  {
    && (forall i :: 0 <= i < |t| ==> IsSlugChar(t[i]))
    && NoDoubleDash(t)
    && (t != [] ==> t[0] != '-' && t[|t| - 1] != '-')
  }

  /** Drops the leading characters that are not word characters. */
  function SkipNonWord(s: string): (r: string)
    ensures |r| <= |s| && r == s[|s| - |r|..]
    ensures r == [] || IsWordChar(r[0])
    ensures s != [] && !IsWordChar(s[0]) ==> |r| < |s|
  {
    if s == [] || IsWordChar(s[0]) then s else SkipNonWord(s[1..])
  }

  /**
   * `.replace(/[\s\W-]+/g, '-')`. White space and `-` are already outside
   * `\w`, so the class is every non-word character and each maximal run of
   * them becomes a single `-`.
   */
  function CollapseRuns(s: string): (r: string)
    decreases |s|
    ensures forall i :: 0 <= i < |r| ==> IsWordChar(r[i]) || r[i] == '-'
    ensures NoUpper(s) ==> NoUpper(r)
    ensures NoDoubleDash(r)
    ensures s != [] && IsWordChar(s[0]) ==> r != [] && r[0] == s[0]
  {
    if s == [] then []
    else if IsWordChar(s[0]) then
      var rest := CollapseRuns(s[1..]);
      SuffixNoUpper(s, 1);
      ConsKeepsShape(s[0], rest);
      [s[0]] + rest
    else
      var rest := CollapseRuns(SkipNonWord(s));
      SuffixNoUpper(s, |s| - |SkipNonWord(s)|);
      ConsKeepsShape('-', rest);
      "-" + rest
  }

  lemma SuffixNoUpper(s: string, k: int)
    requires 0 <= k <= |s|
    ensures NoUpper(s) ==> NoUpper(s[k..])
  {
    if NoUpper(s) {
      forall i | 0 <= i < |s| - k ensures !('A' <= s[k..][i] <= 'Z') {
        assert s[k..][i] == s[k + i];
      }
    }
  }

  /** Putting a word character, or a `-` before a word character, in front of collapsed text keeps its shape. */
  lemma ConsKeepsShape(c: char, r: string)
    requires IsWordChar(c) || c == '-'
    requires forall i :: 0 <= i < |r| ==> IsWordChar(r[i]) || r[i] == '-'
    requires NoDoubleDash(r)
    requires c == '-' ==> r == [] || IsWordChar(r[0])
    ensures forall i :: 0 <= i < |[c] + r| ==> IsWordChar(([c] + r)[i]) || ([c] + r)[i] == '-'
    ensures NoUpper(r) && !('A' <= c <= 'Z') ==> NoUpper([c] + r)
    ensures NoDoubleDash([c] + r)
  {
    var t := [c] + r;
    forall i | 1 <= i < |t| ensures t[i] == r[i - 1] {
    }
  }

  /** Drops the leading `-`s (`^-+`). */
  function TrimDashStart(s: string): (r: string)
    ensures |r| <= |s| && r == s[|s| - |r|..]
    ensures r == [] || r[0] != '-'
    ensures forall i :: 0 <= i < |s| - |r| ==> s[i] == '-'
  {
    if s == [] || s[0] != '-' then s else TrimDashStart(s[1..])
  }

  /** Drops the trailing `-`s (`-+$`). */
  function TrimDashEnd(s: string): (r: string)
    ensures |r| <= |s| && r == s[..|r|]
    ensures r == [] || r[|r| - 1] != '-'
    ensures forall i :: |r| <= i < |s| ==> s[i] == '-'
  {
    if s == [] || s[|s| - 1] != '-' then s else TrimDashEnd(s[..|s| - 1])
  }

  /** The post's `slugify`: lower case, trim, collapse non-word runs to `-`, strip `-` at both ends. */
  function Slugify(input: string): (slug: string)
    ensures IsSlug(slug)
    ensures WordChars(slug) == WordChars(AsciiLower(input))
  {
    var trimmed := Trim(AsciiLower(input));
    TrimKeepsNoUpper(input);
    StrippedIsSlug(CollapseRuns(trimmed));
    SlugKeepsWords(AsciiLower(input));
    TrimDashEnd(TrimDashStart(CollapseRuns(trimmed)))
  }

  /** Lower-cased text has no upper-case ASCII letter, before or after trimming. */
  lemma TrimKeepsNoUpper(input: string)
    ensures NoUpper(Trim(AsciiLower(input)))
  {
    var lowered := AsciiLower(input);
    forall i | 0 <= i < |lowered| ensures !('A' <= lowered[i] <= 'Z') {
      assert lowered[i] == LowerChar(input[i]);
    }
    TrimKeepsChars(lowered);
  }

  lemma TrimKeepsChars(s: string)
    requires NoUpper(s)
    ensures NoUpper(Trim(s))
  {
    hide IsWhitespace;
    var t := TrimStart(s);
    var r := TrimEnd(t);
    forall i | 0 <= i < |r| ensures !('A' <= r[i] <= 'Z') {
      var k := |s| - |t| + i;
      assert r[i] == t[i];
      assert t[i] == s[k];
    }
  }

  /** Only slug characters and no `--`: a slug that may still start or end with `-`. */
  predicate SlugBody(s: string)
  {
    (forall i :: 0 <= i < |s| ==> IsSlugChar(s[i])) && NoDoubleDash(s)
  }

  /** Stripping the `-`s at both ends of collapsed, lower-cased text leaves a slug. */
  lemma StrippedIsSlug(collapsed: string)
    requires forall i :: 0 <= i < |collapsed| ==> IsWordChar(collapsed[i]) || collapsed[i] == '-'
    requires NoUpper(collapsed) && NoDoubleDash(collapsed)
    ensures IsSlug(TrimDashEnd(TrimDashStart(collapsed)))
  {
    CollapsedIsSlugBody(collapsed);
    var t := TrimDashStart(collapsed);
    DashStartKeepsBody(collapsed);
    DashEndGivesSlug(t);
  }

  lemma DashStartKeepsBody(s: string)
    requires SlugBody(s)
    ensures SlugBody(TrimDashStart(s))
  {
    var t := TrimDashStart(s);
    assert s[|s| - |t|..|s|] == t;
    SliceSlugBody(s, |s| - |t|, |s|);
  }

  lemma DashEndGivesSlug(t: string)
    requires SlugBody(t) && (t == [] || t[0] != '-')
    ensures IsSlug(TrimDashEnd(t))
  {
    var stripped := TrimDashEnd(t);
    assert t[0..|stripped|] == stripped;
    SliceSlugBody(t, 0, |stripped|);
    if stripped != [] {
      assert stripped[0] == t[0];
    }
  }


  lemma CollapsedIsSlugBody(collapsed: string)
    requires forall i :: 0 <= i < |collapsed| ==> IsWordChar(collapsed[i]) || collapsed[i] == '-'
    requires NoUpper(collapsed) && NoDoubleDash(collapsed)
    ensures SlugBody(collapsed)
  {
  }

  /** Any slice of a slug body is one. */
  lemma SliceSlugBody(s: string, lo: int, hi: int)
    requires 0 <= lo <= hi <= |s|
    requires SlugBody(s)
    ensures SlugBody(s[lo..hi])
  {
    var r := s[lo..hi];
    forall i | 0 <= i < |r| ensures IsSlugChar(r[i]) {
      assert r[i] == s[lo + i];
    }
    forall i | 0 <= i < |r| - 1 ensures !(r[i] == '-' && r[i + 1] == '-') {
      assert r[i] == s[lo + i] && r[i + 1] == s[lo + i + 1];
    }
  }

  /** The word characters of a string, in order. */
  function WordChars(s: string): string
  {
    if s == [] then [] else (if IsWordChar(s[0]) then [s[0]] else []) + WordChars(s[1..])
  }

  lemma {:induction false} WordCharsAppend(a: string, b: string)
    ensures WordChars(a + b) == WordChars(a) + WordChars(b)
  {
    if a != [] {
      WordCharsAppend(a[1..], b);
      assert (a + b)[1..] == a[1..] + b;
    } else {
      assert a + b == b;
    }
  }

  lemma {:induction false} WordCharsNone(a: string)
    requires forall i :: 0 <= i < |a| ==> !IsWordChar(a[i])
    ensures WordChars(a) == []
  {
    if a != [] {
      WordCharsNone(a[1..]);
    }
  }

  /** Cutting non-word characters off both ends keeps the word characters. */
  lemma CutKeepsWords(s: string, lo: int, hi: int)
    requires 0 <= lo <= hi <= |s|
    requires forall i :: 0 <= i < lo ==> !IsWordChar(s[i])
    requires forall i :: hi <= i < |s| ==> !IsWordChar(s[i])
    ensures WordChars(s[lo..hi]) == WordChars(s)
  {
    CutBack(s, hi);
    var front := s[..hi];
    CutFront(front, lo);
    assert front[lo..] == s[lo..hi];
  }

  lemma CutFront(s: string, lo: int)
    requires 0 <= lo <= |s|
    requires forall i :: 0 <= i < lo ==> !IsWordChar(s[i])
    ensures WordChars(s[lo..]) == WordChars(s)
  {
    hide IsWordChar, WordChars;
    var a := s[..lo];
    assert s == a + s[lo..];
    WordCharsAppend(a, s[lo..]);
    WordCharsNone(a);
  }

  lemma CutBack(s: string, hi: int)
    requires 0 <= hi <= |s|
    requires forall i :: hi <= i < |s| ==> !IsWordChar(s[i])
    ensures WordChars(s[..hi]) == WordChars(s)
  {
    hide IsWordChar, WordChars;
    var b := s[hi..];
    assert s == s[..hi] + b;
    WordCharsAppend(s[..hi], b);
    WordCharsNone(b);
  }

  lemma {:induction false} SkipKeepsWords(s: string)
    ensures WordChars(SkipNonWord(s)) == WordChars(s)
  {
    if s != [] && !IsWordChar(s[0]) {
      SkipKeepsWords(s[1..]);
    }
  }

  /** The collapsing step keeps every word character, in order. */
  lemma {:induction false} CollapseKeepsWords(s: string)
    ensures WordChars(CollapseRuns(s)) == WordChars(s)
    decreases |s|
  {
    if s != [] {
      if IsWordChar(s[0]) {
        CollapseKeepsWords(s[1..]);
        assert ([s[0]] + CollapseRuns(s[1..]))[1..] == CollapseRuns(s[1..]);
      } else {
        CollapseKeepsWords(SkipNonWord(s));
        SkipKeepsWords(s);
        assert ("-" + CollapseRuns(SkipNonWord(s)))[1..] == CollapseRuns(SkipNonWord(s));
      }
    }
  }

  /**
   * The maximal runs of non-word characters in `s`, counted as the positions
   * holding a non-word character whose predecessor is a word character (or
   * that start the string, when `afterWord`).
   */
  function RunsAfter(afterWord: bool, s: string): nat
    decreases |s|
  {
    if s == [] then 0
    else (if afterWord && !IsWordChar(s[0]) then 1 else 0) + RunsAfter(IsWordChar(s[0]), s[1..])
  }

  function RunCount(s: string): nat
  {
    RunsAfter(true, s)
  }

  lemma {:induction false} SkipRuns(s: string)
    ensures RunsAfter(false, s) == RunCount(SkipNonWord(s))
  {
    if s != [] && !IsWordChar(s[0]) {
      SkipRuns(s[1..]);
    }
  }

  /** The collapsing step writes exactly one `-` per maximal run of non-word characters. */
  lemma {:induction false} CollapseDashCount(s: string)
    ensures CountChar(CollapseRuns(s), '-') == RunCount(s)
    decreases |s|
  {
    if s != [] {
      if IsWordChar(s[0]) {
        CollapseDashCount(s[1..]);
        CountCharCons(s[0], CollapseRuns(s[1..]), '-');
      } else {
        CollapseDashCount(SkipNonWord(s));
        CountCharCons('-', CollapseRuns(SkipNonWord(s)), '-');
        SkipRuns(s[1..]);
        assert SkipNonWord(s) == SkipNonWord(s[1..]);
      }
    }
  }

  /** Lower-casing aside, `slugify` keeps every word character of its input, in order. */
  lemma SlugKeepsWords(lowered: string)
    ensures WordChars(TrimDashEnd(TrimDashStart(CollapseRuns(Trim(lowered))))) == WordChars(lowered)
  {
    TrimKeepsWords(lowered);
    CollapseKeepsWords(Trim(lowered));
    DashTrimKeepsWords(CollapseRuns(Trim(lowered)));
  }

  lemma TrimKeepsWords(s: string)
    ensures WordChars(Trim(s)) == WordChars(s)
  {
    hide IsWhitespace, IsWordChar, WordChars;
    var front := TrimStart(s);
    var k := |s| - |front|;
    forall i | 0 <= i < k ensures !IsWordChar(s[i]) {
      WhitespaceIsNotWord(s[i]);
    }
    CutFront(s, k);
    var back := TrimEnd(front);
    forall i | |back| <= i < |front| ensures !IsWordChar(front[i]) {
      WhitespaceIsNotWord(front[i]);
    }
    CutBack(front, |back|);
  }

  lemma WhitespaceIsNotWord(c: char)
    requires IsWhitespace(c)
    ensures !IsWordChar(c)
  {
  }

  lemma DashTrimKeepsWords(s: string)
    ensures WordChars(TrimDashEnd(TrimDashStart(s))) == WordChars(s)
  {
    assert !IsWordChar('-');
    hide IsWordChar, WordChars;
    var front := TrimDashStart(s);
    CutFront(s, |s| - |front|);
    var back := TrimDashEnd(front);
    CutBack(front, |back|);
  }


  lemma CollapseCons(c: char, t: string)
    requires IsWordChar(c)
    ensures CollapseRuns([c] + t) == [c] + CollapseRuns(t)
  {
    assert ([c] + t)[1..] == t;
  }

  lemma {:induction false} CollapseWordPrefix(w: string, t: string)
    requires forall i :: 0 <= i < |w| ==> IsWordChar(w[i])
    ensures CollapseRuns(w + t) == w + CollapseRuns(t)
  {
    hide CollapseRuns;
    if w != [] {
      CollapseWordPrefix(w[1..], t);
      assert w + t == [w[0]] + (w[1..] + t);
      CollapseCons(w[0], w[1..] + t);
      assert w + CollapseRuns(t) == [w[0]] + (w[1..] + CollapseRuns(t));
    } else {
      assert w + t == t;
    }
  }

  lemma {:induction false} SkipRunPrefix(n: string, t: string)
    requires forall i :: 0 <= i < |n| ==> !IsWordChar(n[i])
    requires t == [] || IsWordChar(t[0])
    ensures SkipNonWord(n + t) == t
  {
    hide IsWordChar;
    if n != [] {
      var rest := n[1..];
      forall i | 0 <= i < |rest| ensures !IsWordChar(rest[i]) {
        assert rest[i] == n[i + 1];
      }
      SkipRunPrefix(rest, t);
      var whole := n + t;
      assert whole[0] == n[0] && !IsWordChar(whole[0]);
      assert whole[1..] == rest + t;
    } else {
      assert n + t == t;
    }
  }

  lemma CollapseRunPrefix(n: string, t: string)
    requires n != [] && forall i :: 0 <= i < |n| ==> !IsWordChar(n[i])
    requires t == [] || IsWordChar(t[0])
    ensures CollapseRuns(n + t) == "-" + CollapseRuns(t)
  {
    SkipRunPrefix(n, t);
  }

  /** Two words, each followed by a run of non-word characters. */
  lemma CollapseTwoWords(a: string, b: string, c: string, d: string)
    requires forall i :: 0 <= i < |a| ==> IsWordChar(a[i])
    requires c != [] && forall i :: 0 <= i < |c| ==> IsWordChar(c[i])
    requires b != [] && forall i :: 0 <= i < |b| ==> !IsWordChar(b[i])
    requires d != [] && forall i :: 0 <= i < |d| ==> !IsWordChar(d[i])
    ensures CollapseRuns(a + b + c + d) == a + "-" + c + "-"
  {
    CollapseOneRun(d);
    hide CollapseRuns, IsWordChar;
    var cd := c + d;
    CollapseWordPrefix(c, d);
    assert CollapseRuns(cd) == c + "-";
    var bcd := b + cd;
    CollapseRunPrefix(b, cd);
    assert CollapseRuns(bcd) == "-" + (c + "-");
    CollapseWordPrefix(a, bcd);
    ConcatAssoc(a, b, c, d);
    ConcatAssoc(a, "-", c, "-");
  }

  lemma ConcatAssoc(a: string, b: string, c: string, d: string)
    ensures a + b + c + d == a + (b + (c + d))
  {
  }

  /** A lone run of non-word characters collapses to one `-`. */
  lemma CollapseOneRun(d: string)
    requires d != [] && forall i :: 0 <= i < |d| ==> !IsWordChar(d[i])
    ensures CollapseRuns(d) == "-"
  {
    SkipRunPrefix(d, []);
    assert d + [] == d;
  }

  lemma LowerHello()
    ensures Trim(AsciiLower("Hello,  World!")) == "hello,  world!"
  {
    LowerHelloChars();
    hide AsciiLower;
    TrimHello();
  }

  lemma LowerHelloChars()
    ensures AsciiLower("Hello,  World!") == "hello,  world!"
  {
  }

  lemma TrimHello()
    ensures Trim("hello,  world!") == "hello,  world!"
  {
    var text := "hello,  world!";
    assert !IsWhitespace(text[0]) && !IsWhitespace(text[|text| - 1]);
    hide IsWhitespace;
    assert TrimStart(text) == text;
    assert TrimEnd(text) == text;
  }

  lemma CollapseHello()
    ensures CollapseRuns("hello,  world!") == "hello-world-"
  {
    hide CollapseRuns;
    assert "hello,  world!" == "hello" + ",  " + "world" + "!";
    CollapseTwoWords("hello", ",  ", "world", "!");
  }

  lemma StripHello()
    ensures TrimDashEnd(TrimDashStart("hello-world-")) == "hello-world"
  {
    assert TrimDashStart("hello-world-") == "hello-world-";
  }

  /** A title with punctuation and a double space. */
  lemma SlugifyExample()
    ensures Slugify("Hello,  World!") == "hello-world"
  {
    LowerHello();
    CollapseHello();
    StripHello();
    hide Trim, AsciiLower, CollapseRuns, TrimDashStart, TrimDashEnd;
  }

  /** A slug is left as it is by `slugify`. */
  lemma SlugFixpoint(t: string)
    requires IsSlug(t)
    ensures Slugify(t) == t
  {
    assert AsciiLower(t) == t;
    if t != [] {
      assert !IsWhitespace(t[0]) && !IsWhitespace(t[|t| - 1]);
      assert TrimStart(t) == t;
      assert TrimEnd(t) == t;
    }
    assert Trim(t) == t;
    CollapseFixpoint(t);
  }

  /** A string of word characters and single `-`s is left as it is by the collapsing step. */
  lemma {:induction false} CollapseFixpoint(t: string)
    requires forall i :: 0 <= i < |t| ==> IsWordChar(t[i]) || t[i] == '-'
    requires NoDoubleDash(t)
    ensures CollapseRuns(t) == t
    decreases |t|
  {
    if t != [] {
      CollapseFixpoint(t[1..]);
      if !IsWordChar(t[0]) {
        assert t[0] == '-';
        if |t| > 1 {
          assert t[1] != '-';
          assert SkipNonWord(t) == t[1..];
        } else {
          assert SkipNonWord(t) == [];
        }
        assert t == "-" + t[1..];
      } else {
        assert t == [t[0]] + t[1..];
      }
    }
  }

  /** `slugify` is idempotent. */
  lemma SlugifyIdempotent(s: string)
    ensures Slugify(Slugify(s)) == Slugify(s)
  {
    SlugFixpoint(Slugify(s));
  }

  // The youtubeUrl validator

  const InvalidUrlMessage := "Enter a valid URL."
  const NotYouTubeMessage := "Use a valid YouTube URL."
  const PlaylistMessage := "Playlists are not supported. Use an individual video URL."

  /** The custom validator of the `youtubeUrl` field. */
  function ValidateYouTubeUrl(value: Option<string>, parse: string -> Option<Url>): (r: Validation)
    ensures value.None? || value.value == "" ==> r == Valid
    ensures r.Invalid? ==> r.message in {InvalidUrlMessage, NotYouTubeMessage, PlaylistMessage}
  {
    if value.None? || value.value == "" then Valid
    else
      match parse(value.value)
      case None => Invalid(InvalidUrlMessage)
      case Some(u) =>
        var hostname := StripWww(u.hostname);
        if hostname !in ["youtube.com", "youtu.be"] then Invalid(NotYouTubeMessage)
        else if IsPlaylist(u) then Invalid(PlaylistMessage)
        else Valid
  }

  /**
   * A non-empty link is refused with "Enter a valid URL." when it does not
   * parse, then with "Use a valid YouTube URL." when its host is not
   * allowed (a foreign playlist gets this message), then with the playlist
   * message, and accepted otherwise.
   */
  lemma ValidatorVerdicts(s: string, parse: string -> Option<Url>)
    requires s != ""
    ensures parse(s).None? ==> ValidateYouTubeUrl(Some(s), parse) == Invalid(InvalidUrlMessage)
    ensures parse(s).Some? && StripWww(parse(s).value.hostname) !in {"youtube.com", "youtu.be"} ==>
      ValidateYouTubeUrl(Some(s), parse) == Invalid(NotYouTubeMessage)
    ensures parse(s).Some? && StripWww(parse(s).value.hostname) in {"youtube.com", "youtu.be"} ==>
      (ValidateYouTubeUrl(Some(s), parse) == Invalid(PlaylistMessage) <==> IsPlaylist(parse(s).value))
    ensures parse(s).Some? && StripWww(parse(s).value.hostname) in {"youtube.com", "youtu.be"} ==>
      (ValidateYouTubeUrl(Some(s), parse) == Valid <==> !IsPlaylist(parse(s).value))
    ensures ValidateYouTubeUrl(Some(s), parse) == Valid <==>
      parse(s).Some? && StripWww(parse(s).value.hostname) in {"youtube.com", "youtu.be"} && !IsPlaylist(parse(s).value)
  {
  }

  /** Every link the site can take a video id from passes the validator. */
  lemma ExtractableLinkIsValid(value: Option<string>, parse: string -> Option<Url>)
    requires GetYouTubeId(value, parse).Some?
    ensures ValidateYouTubeUrl(value, parse) == Valid
  {
  }

  // Preview

  /** The separator as the post preview spells it: `Â·`, the UTF-8 bytes of `·` read as Latin-1. */
  const MisencodedSeparator: string := " \U{00C2}\U{00B7} "

  /** The post preview subtitle as written, with the misencoded separator. */
  function PostSubtitleAsWritten(date: string, slug: string): (subtitle: string)
    ensures slug == "" ==> subtitle == date
    ensures slug != "" ==> StartsWith(subtitle, date) && subtitle[|date|..] == MisencodedSeparator + "/blog/" + slug
  {
    if slug != "" then date + MisencodedSeparator + "/blog/" + slug else date
  }

  /** The post preview subtitle with the separator the other previews use. */
  function PostSubtitle(date: string, slug: string): (subtitle: string)
    ensures slug == "" ==> subtitle == date
    ensures slug != "" ==>
      && |subtitle| == |date| + |Separator| + 6 + |slug|
      && StartsWith(subtitle, date)
      && subtitle[|date|..|date| + |Separator|] == Separator
      && subtitle[|date| + |Separator|..] == "/blog/" + slug
  {
    if slug != "" then
      var r := date + Separator + "/blog/" + slug;
      assert r[..|date|] == date;
      r
    else date
  }

  /** The as-written subtitle shows `Â` where the separator should be. */
  lemma MisencodedSeparatorShows(date: string, slug: string)
    requires slug != ""
    ensures PostSubtitleAsWritten(date, slug)[|date| + 1] == '\U{00C2}'
    ensures PostSubtitle(date, slug)[|date| + 1] == '\U{00B7}'
    ensures PostSubtitleAsWritten(date, slug) != PostSubtitle(date, slug)
  {
    var w := PostSubtitleAsWritten(date, slug);
    assert w[|date| + 1] == MisencodedSeparator[1];
  }

  /** The post preview: title or "Untitled post", and the date, plus the path when there is a slug. */
  function PostPreview(title: string, publishedAt: string, slug: string, format: string -> string): (p: Preview)
    ensures title != "" ==> p.title == title
    ensures title == "" ==> p.title == "Untitled post"
    ensures p.subtitle == PostSubtitle(DateOr(publishedAt, format, "Draft"), slug)
  {
    Preview(OrElse(title, "Untitled post"), PostSubtitle(DateOr(publishedAt, format, "Draft"), slug))
  }
}
