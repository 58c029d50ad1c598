/** Application names are built from package versions. Deferred cleanup is safe as long as no
    release reuses a listed name, so it matters when two releases can share one. */
module AppNames {

  predicate Digit(c: char) {
    '0' <= c <= '9'
  }

  predicate Upper(c: char) {
    'A' <= c <= 'Z'
  }

  predicate Alphanumeric(c: char) {
    Digit(c) || Upper(c) || 'a' <= c <= 'z'
  }

  /** Every run of other characters becomes one dash. */
  function Squeezed(s: string): (r: string)
  {
    if s == "" then ""
    else
      var n := |s| - 1;
      var r := Squeezed(s[..n]);
      if Alphanumeric(s[n]) then r + [s[n]]
      else if n > 0 && !Alphanumeric(s[n - 1]) then r
      else r + ['-']
  }

  function StripLeft(s: string): string {
    if s != "" && s[0] == '-' then StripLeft(s[1..]) else s
  }

  function StripRight(s: string): string {
    if s != "" && s[|s| - 1] == '-' then StripRight(s[..|s| - 1]) else s
  }

  function Lower(s: string): (r: string)
    ensures |r| == |s|
  {
    if s == "" then ""
    else
      var c := s[|s| - 1];
      Lower(s[..|s| - 1]) + [if Upper(c) then 'a' + (c - 'A') else c]
  }

  /** `_slugify_version`. */
  function Slug(version: string): string {
    var slug := Lower(StripRight(StripLeft(Squeezed(version))));
    if slug == "" then "unknown" else slug
  }

  const APP_NAME_PREFIX: string := "policyengine-household-api"

  /** `build_app_name` for a pair of release versions. */
  function BuildAppName(uk: string, us: string): string {
    APP_NAME_PREFIX + ("-uk" + (Slug(uk) + "-us" + Slug(us)))
  }

  // ----- what a slug keeps of a version -----

  /** The maximal alphanumeric runs of a version, in order. */
  function Words(s: string): (w: seq<string>)
    ensures s != "" && Alphanumeric(s[|s| - 1]) ==> w != []
  {
    if s == "" then []
    else
      var n := |s| - 1;
      var w := Words(s[..n]);
      if !Alphanumeric(s[n]) then w
      else if n > 0 && Alphanumeric(s[n - 1]) then w[..|w| - 1] + [w[|w| - 1] + [s[n]]]
      else w + [[s[n]]]
  }

  function LowerAll(words: seq<string>): (r: seq<string>)
    ensures |r| == |words| && forall i :: 0 <= i < |words| ==> r[i] == Lower(words[i])
  {
    seq(|words|, i requires 0 <= i < |words| => Lower(words[i]))
  }

  /** The lower-cased runs of a version; a version without any reads as "unknown". */
  function Runs(version: string): (runs: seq<string>)
    ensures runs != []
  {
    if Words(version) == [] then ["unknown"] else LowerAll(Words(version))
  }

  /** Words with a dash between neighbours. */
  function Join(words: seq<string>): string {
    if words == [] then ""
    else if |words| == 1 then words[0]
    else Join(words[..|words| - 1]) + "-" + words[|words| - 1]
  }

  predicate IsWord(w: string) {
    w != "" && forall c <- w :: Alphanumeric(c)
  }

  ghost predicate AreWords(words: seq<string>) {
    forall w <- words :: IsWord(w)
  }

  lemma {:induction false} WordsAreWords(s: string)
    ensures AreWords(Words(s))
  {
    if s != "" {
      var n := |s| - 1;
      WordsAreWords(s[..n]);
      var w := Words(s[..n]);
      if Alphanumeric(s[n]) && n > 0 && Alphanumeric(s[n - 1]) {
        assert w[|w| - 1] in w;
      }
    }
  }

  // ----- joining and splitting -----

  lemma WordsOfWordSnoc(a: string, c: char)
    requires Alphanumeric(c)
    ensures Words(a + [c]) ==
              if a != "" && Alphanumeric(a[|a| - 1]) then Words(a)[..|Words(a)| - 1] + [Words(a)[|Words(a)| - 1] + [c]]
              else Words(a) + [[c]]
  {
    assert (a + [c])[..|a|] == a;
  }

  /** One more letter of the last run. */
  lemma RunGrows(t: string, before: seq<string>, v: string, c: char)
    requires t != "" && Alphanumeric(t[|t| - 1]) && Alphanumeric(c) && Words(t) == before + [v]
    ensures Words(t + [c]) == before + [v + [c]]
  {
    WordsOfWordSnoc(t, c);
  }

  lemma WordPrefix(w: string)
    requires IsWord(w) && |w| > 1
    ensures IsWord(w[..|w| - 1]) && Alphanumeric(w[|w| - 1]) && w == w[..|w| - 1] + [w[|w| - 1]]
  {
    assert w[|w| - 1] in w;
    forall c <- w[..|w| - 1] ensures Alphanumeric(c) {
      assert c in w;
    }
  }

  lemma Regroup(a: string, b: string, c: string)
    ensures a + (b + c) == a + b + c
  {
  }

  /** A word after a dash, or at the start, is one more run. */
  lemma {:induction false} WordsOfAppended(a: string, w: string)
    requires IsWord(w) && (a == "" || !Alphanumeric(a[|a| - 1]))
    ensures Words(a + w) == Words(a) + [w]
  {
    var n := |w| - 1;
    if n == 0 {
      assert w == [w[0]] && w[0] in w;
      WordsOfWordSnoc(a, w[0]);
    } else {
      WordPrefix(w);
      WordsOfAppended(a, w[..n]);
      assert (a + w[..n])[|a + w[..n]| - 1] == w[n - 1] && w[n - 1] in w;
      RunGrows(a + w[..n], Words(a), w[..n], w[n]);
      Regroup(a, w[..n], [w[n]]);
    }
  }

  lemma WordsOfDash(a: string)
    ensures Words(a + "-") == Words(a)
  {
    assert (a + "-")[..|a|] == a;
  }

  /** Splitting undoes joining. */
  lemma {:induction false} WordsOfJoin(words: seq<string>)
    requires AreWords(words)
    ensures Words(Join(words)) == words
  {
    if |words| == 1 {
      assert words[0] in words && "" + words[0] == words[0] && Words("") == [];
      WordsOfAppended("", words[0]);
      assert words == [words[0]];
    } else if words != [] {
      var n := |words| - 1;
      var before := Join(words[..n]) + "-";
      assert words[n] in words;
      forall w <- words[..n] ensures IsWord(w) {
        assert w in words;
      }
      WordsOfJoin(words[..n]);
      WordsOfDash(Join(words[..n]));
      WordsOfAppended(before, words[n]);
      assert words == words[..n] + [words[n]];
    }
  }

  lemma JoinInjective(a: seq<string>, b: seq<string>)
    requires AreWords(a) && AreWords(b)
    ensures Join(a) == Join(b) <==> a == b
  {
    WordsOfJoin(a);
    WordsOfJoin(b);
  }

  // ----- slugs are joined runs -----

  function LeadingDash(s: string): string {
    if s != "" && !Alphanumeric(s[0]) then "-" else ""
  }

  function TrailingDash(s: string): string {
    if Words(s) != [] && !Alphanumeric(s[|s| - 1]) then "-" else ""
  }

  lemma JoinExtends(words: seq<string>, c: char)
    requires words != []
    ensures Join(words[..|words| - 1] + [words[|words| - 1] + [c]]) == Join(words) + [c]
  {
    var longer := words[..|words| - 1] + [words[|words| - 1] + [c]];
    assert longer[..|longer| - 1] == words[..|words| - 1];
  }

  lemma JoinSnoc(words: seq<string>, w: string)
    requires words != []
    ensures Join(words + [w]) == Join(words) + "-" + w
  {
    assert (words + [w])[..|words|] == words;
  }

  /** The squeezed form of a version, read off its runs and its ragged ends. */
  function Dashes(s: string): string {
    LeadingDash(s) + Join(Words(s)) + TrailingDash(s)
  }

  lemma SqueezedSnoc(t: string, c: char)
    ensures Squeezed(t + [c]) ==
              if Alphanumeric(c) then Squeezed(t) + [c]
              else if t != "" && !Alphanumeric(t[|t| - 1]) then Squeezed(t)
              else Squeezed(t) + ['-']
  {
    assert (t + [c])[..|t|] == t;
  }

  lemma WordsOfOtherSnoc(t: string, c: char)
    requires !Alphanumeric(c)
    ensures Words(t + [c]) == Words(t)
  {
    assert (t + [c])[..|t|] == t;
  }

  lemma DashesOfOther(t: string, c: char)
    requires !Alphanumeric(c)
    ensures Dashes(t + [c]) == if t != "" && !Alphanumeric(t[|t| - 1]) then Dashes(t) else Dashes(t) + ['-']
  {
    WordsOfOtherSnoc(t, c);
    if Words(t) == [] {
      NoWordsNoRuns(t);
    }
  }

  lemma EndsOfWordChar(t: string, c: char)
    requires Alphanumeric(c) && t != ""
    ensures LeadingDash(t + [c]) == LeadingDash(t) && TrailingDash(t + [c]) == ""
  {
  }

  lemma FrameGrows(lead: string, body: string, trail: string, body': string, c: char)
    requires body' == body + trail + [c]
    ensures lead + body' + "" == lead + body + trail + [c]
  {
    Regroup(lead, body + trail, [c]);
    Regroup(lead, body, trail);
  }

  /** How the runs go on with one more letter or digit, after a dash or not. */
  lemma RunsOfWordChar(t: string, c: char)
    requires Alphanumeric(c)
    ensures TrailingDash(t) == "-" ==> Words(t) != [] && Words(t + [c]) == Words(t) + [[c]]
    ensures TrailingDash(t) != "-" ==> TrailingDash(t) == ""
    ensures TrailingDash(t) == "" && Words(t) != [] ==>
              Words(t + [c]) == Words(t)[..|Words(t)| - 1] + [Words(t)[|Words(t)| - 1] + [c]]
    ensures Words(t) == [] ==> Words(t + [c]) == [[c]]
  {
    WordsOfWordSnoc(t, c);
    if Words(t) == [] {
      NoWordsNoRuns(t);
    }
  }

  /** Squeezing leaves the runs, a dash between neighbours, and a dash at either ragged end. */
  lemma {:induction false} SqueezedIsJoined(s: string)
    ensures Squeezed(s) == Dashes(s)
  {
    if s != "" {
      var t, c := s[..|s| - 1], s[|s| - 1];
      assert s == t + [c];
      SqueezedIsJoined(t);
      SqueezedSnoc(t, c);
      if Alphanumeric(c) {
        RunsOfWordChar(t, c);
        if t != "" {
          EndsOfWordChar(t, c);
        }
        if Words(t) != [] {
          if TrailingDash(t) == "-" {
            JoinSnoc(Words(t), [c]);
          } else {
            JoinExtends(Words(t), c);
          }
          FrameGrows(LeadingDash(t), Join(Words(t)), TrailingDash(t), Join(Words(s)), c);
        }
      } else {
        DashesOfOther(t, c);
      }
    }
  }

  lemma {:induction false} NoWordsNoRuns(s: string)
    requires Words(s) == []
    ensures forall c <- s :: !Alphanumeric(c)
    ensures s != "" ==> !Alphanumeric(s[0]) && !Alphanumeric(s[|s| - 1])
  {
    if s != "" {
      NoWordsNoRuns(s[..|s| - 1]);
    }
  }

  lemma {:induction false} JoinEnds(words: seq<string>)
    requires AreWords(words) && words != []
    ensures Join(words) != "" && Join(words)[0] != '-' && Join(words)[|Join(words)| - 1] != '-'
  {
    var n := |words| - 1;
    var w := words[n];
    assert w in words && w[0] in w && w[|w| - 1] in w;
    if n > 0 {
      forall w <- words[..n] ensures IsWord(w) {
        assert w in words;
      }
      JoinEnds(words[..n]);
    }
  }

  lemma StripDashes(lead: string, body: string, trail: string)
    requires lead == "" || lead == "-"
    requires trail == "" || trail == "-"
    requires body != "" ==> body[0] != '-' && body[|body| - 1] != '-'
    requires body == "" ==> trail == ""
    ensures StripRight(StripLeft(lead + body + trail)) == body
  {
    assert StripLeft(body + trail) == body + trail;
    assert lead == "-" ==> (lead + body + trail)[1..] == body + trail;
    assert trail == "-" ==> (body + trail)[..|body|] == body;
    assert trail == "" ==> body + trail == body;
    assert lead == "" ==> lead + body + trail == body + trail;
    assert StripRight(body + trail) == body;
  }

  lemma {:induction false} LowerConcat(a: string, b: string)
    ensures Lower(a + b) == Lower(a) + Lower(b)
  {
    if b == "" {
      assert a + b == a;
    } else {
      var n := |b| - 1;
      assert (a + b)[..|a| + n] == a + b[..n];
      LowerConcat(a, b[..n]);
    }
  }

  lemma {:induction false} LowerOfJoin(words: seq<string>)
    ensures Lower(Join(words)) == Join(LowerAll(words))
  {
    var n := |words| - 1;
    if |words| > 1 {
      LowerOfJoin(words[..n]);
      assert LowerAll(words)[..n] == LowerAll(words[..n]);
      LowerConcat(Join(words[..n]) + "-", words[n]);
      LowerConcat(Join(words[..n]), "-");
      assert Lower("-") == "-";
    }
  }

  lemma {:induction false} LowerIsWord(w: string)
    requires forall c <- w :: Alphanumeric(c)
    ensures forall c <- Lower(w) :: Alphanumeric(c) && !Upper(c)
  {
    if w != "" {
      assert w[|w| - 1] in w;
      forall c <- w[..|w| - 1] ensures Alphanumeric(c) {
        assert c in w;
      }
      LowerIsWord(w[..|w| - 1]);
    }
  }

  lemma LowerWord(w: string)
    requires IsWord(w)
    ensures IsWord(Lower(w)) && Lower(Lower(w)) == Lower(w)
  {
    LowerIsWord(w);
    LowerKeeps(Lower(w));
  }

  lemma LowerAllAreWords(words: seq<string>)
    requires AreWords(words)
    ensures AreWords(LowerAll(words)) && forall w <- LowerAll(words) :: Lower(w) == w
  {
    forall i | 0 <= i < |words| ensures IsWord(LowerAll(words)[i]) && Lower(LowerAll(words)[i]) == LowerAll(words)[i] {
      assert words[i] in words;
      LowerWord(words[i]);
    }
  }

  lemma RunsAreWords(version: string)
    ensures AreWords(Runs(version)) && forall w <- Runs(version) :: Lower(w) == w
  {
    WordsAreWords(version);
    LowerAllAreWords(Words(version));
    LowerKeeps("unknown");
  }

  lemma {:induction false} LowerKeeps(s: string)
    requires forall c <- s :: !Upper(c)
    ensures Lower(s) == s
  {
    if s != "" {
      LowerKeeps(s[..|s| - 1]);
      assert s == s[..|s| - 1] + [s[|s| - 1]];
    }
  }

  /** A slug is the version's runs, joined by dashes. */
  lemma SlugIsJoinedRuns(version: string)
    ensures Slug(version) == Join(Runs(version))
  {
    var words := Words(version);
    WordsAreWords(version);
    SqueezedIsJoined(version);
    if words != [] {
      JoinEnds(words);
    }
    StripDashes(LeadingDash(version), Join(words), TrailingDash(version));
    LowerOfJoin(words);
    RunsAreWords(version);
    JoinEnds(Runs(version));
  }

  /** Two versions have the same slug if and only if they have the same runs: case and punctuation
      are lost, and nothing else. */
  lemma SlugsCollide(v: string, v': string)
    ensures Slug(v) == Slug(v') <==> Runs(v) == Runs(v')
  {
    SlugIsJoinedRuns(v);
    SlugIsJoinedRuns(v');
    RunsAreWords(v);
    RunsAreWords(v');
    JoinInjective(Runs(v), Runs(v'));
  }

  // ----- what a slug looks like -----

  /** The letters and digits of a text, in order and in lower case. */
  function Kept(s: string): string {
    if s == "" then ""
    else
      var c := s[|s| - 1];
      Kept(s[..|s| - 1])
      + if 'A' <= c <= 'Z' then ['a' + (c - 'A')] else if 'a' <= c <= 'z' || '0' <= c <= '9' then [c] else []
  }

  lemma KeptSnoc(s: string, c: char)
    ensures Kept(s + [c])
         == Kept(s) + if 'A' <= c <= 'Z' then ['a' + (c - 'A')] else if 'a' <= c <= 'z' || '0' <= c <= '9' then [c] else []
  {
    assert (s + [c])[..|s|] == s;
  }

  lemma {:induction false} SqueezingKeeps(s: string)
    ensures Kept(Squeezed(s)) == Kept(s)
  {
    if s != "" {
      var t, c := s[..|s| - 1], s[|s| - 1];
      assert s == t + [c];
      SqueezingKeeps(t);
      SqueezedSnoc(t, c);
      KeptSnoc(t, c);
      KeptSnoc(Squeezed(t), if Alphanumeric(c) then c else '-');
    }
  }

  lemma {:induction false} KeptDropsFirstDash(s: string)
    requires s != "" && s[0] == '-'
    ensures Kept(s[1..]) == Kept(s)
  {
    if |s| > 1 {
      var n := |s| - 1;
      KeptDropsFirstDash(s[..n]);
      assert s[1..] == s[..n][1..] + [s[n]] && s == s[..n] + [s[n]];
      KeptSnoc(s[..n][1..], s[n]);
      KeptSnoc(s[..n], s[n]);
    }
  }

  lemma {:induction false} StrippingKeeps(s: string)
    ensures Kept(StripLeft(s)) == Kept(s)
    decreases |s|
  {
    if s != "" && s[0] == '-' {
      KeptDropsFirstDash(s);
      StrippingKeeps(s[1..]);
    }
  }

  lemma {:induction false} StrippingRightKeeps(s: string)
    ensures Kept(StripRight(s)) == Kept(s)
  {
    if s != "" && s[|s| - 1] == '-' {
      StrippingRightKeeps(s[..|s| - 1]);
    }
  }

  lemma {:induction false} LoweringKeeps(s: string)
    ensures Kept(Lower(s)) == Kept(s)
  {
    if s != "" {
      var t, c := s[..|s| - 1], s[|s| - 1];
      LoweringKeeps(t);
      KeptSnoc(Lower(t), if Upper(c) then 'a' + (c - 'A') else c);
    }
  }

  lemma {:induction false} NothingKept(s: string)
    requires Kept(s) == ""
    ensures Words(s) == []
  {
    if s != "" {
      NothingKept(s[..|s| - 1]);
    }
  }

  /** A slug spells the version's letters and digits, in order and in lower case, or "unknown" when
      there are none; the only other character in it is the dash, and never at either end. */
  lemma SlugSpellsVersion(version: string)
    ensures var slug := Slug(version);
            && (Kept(version) != "" ==> Kept(slug) == Kept(version))
            && (Kept(version) == "" ==> slug == "unknown")
            && (forall c <- slug :: '0' <= c <= '9' || 'a' <= c <= 'z' || c == '-')
            && slug != "" && slug[0] != '-' && slug[|slug| - 1] != '-'
  {
    var squeezed := Squeezed(version);
    SqueezingKeeps(version);
    StrippingKeeps(squeezed);
    StrippingRightKeeps(StripLeft(squeezed));
    LoweringKeeps(StripRight(StripLeft(squeezed)));
    SlugIsJoinedRuns(version);
    RunsAreWords(version);
    JoinEnds(Runs(version));
    JoinIsPlain(Runs(version));
    if Kept(version) == "" {
      NothingKept(version);
    }
  }

  lemma {:induction false} JoinIsPlain(words: seq<string>)
    requires AreWords(words) && forall w <- words :: Lower(w) == w
    ensures forall c <- Join(words) :: '0' <= c <= '9' || 'a' <= c <= 'z' || c == '-'
  {
    if words != [] {
      var n := |words| - 1;
      var w := words[n];
      assert w in words;
      LowerIsWord(w);
      forall x <- words[..n] ensures IsWord(x) && Lower(x) == x {
        assert x in words;
      }
      JoinIsPlain(words[..n]);
    }
  }

  // ----- names -----

  /** The runs of a name after its prefix: those of the UK version, then those of the US version with
      the country's letters in front. */
  function NameRuns(uk: seq<string>, us: seq<string>): seq<string>
    requires us != []
  {
    uk + Marked(us)
  }

  function Marked(us: seq<string>): (marked: seq<string>)
    requires us != []
    ensures |marked| == |us|
  {
    ["us" + us[0]] + us[1..]
  }

  lemma {:induction false} JoinConcat(a: seq<string>, b: seq<string>)
    requires a != [] && b != []
    ensures Join(a + b) == Join(a) + "-" + Join(b)
  {
    var n := |b| - 1;
    if n == 0 {
      assert a + b == a + [b[0]];
      JoinSnoc(a, b[0]);
    } else {
      JoinConcat(a, b[..n]);
      assert a + b == a + b[..n] + [b[n]];
      JoinSnoc(a + b[..n], b[n]);
      Regroup(Join(a) + "-", Join(b[..n]), "-");
      Regroup(Join(a) + "-", Join(b[..n]) + "-", b[n]);
    }
  }

  lemma {:induction false} JoinMarked(us: seq<string>)
    requires us != []
    ensures Join(Marked(us)) == "us" + Join(us)
  {
    var n := |us| - 1;
    if n > 0 {
      JoinMarked(us[..n]);
      assert Marked(us)[..n] == Marked(us[..n]) && Marked(us)[n] == us[n];
    }
  }

  lemma MarkedIsWord(w: string)
    requires IsWord(w)
    ensures IsWord("us" + w)
  {
    forall c <- "us" + w ensures Alphanumeric(c) {
      assert c in "us" || c in w;
    }
  }

  lemma NameRunsAreWords(uk: seq<string>, us: seq<string>)
    requires AreWords(uk) && AreWords(us) && us != []
    ensures AreWords(NameRuns(uk, us))
  {
    assert us[0] in us;
    MarkedIsWord(us[0]);
    forall w <- NameRuns(uk, us) ensures IsWord(w) {
      assert w in uk || w == "us" + us[0] || w in us[1..];
      assert w in us[1..] ==> w in us;
    }
  }

  lemma PrefixCancels(prefix: string, a: string, b: string)
    ensures prefix + a == prefix + b <==> a == b
  {
    assert a == (prefix + a)[|prefix|..] && b == (prefix + b)[|prefix|..];
  }

  function NameTail(uk: string, us: string): string {
    Slug(uk) + "-us" + Slug(us)
  }

  lemma TailIsJoined(uk: string, us: string)
    ensures NameTail(uk, us) == Join(NameRuns(Runs(uk), Runs(us)))
  {
    SlugIsJoinedRuns(uk);
    SlugIsJoinedRuns(us);
    JoinMarked(Runs(us));
    JoinConcat(Runs(uk), Marked(Runs(us)));
    MarkRegroups(Slug(uk), Slug(us));
  }

  lemma MarkRegroups(a: string, b: string)
    ensures a + "-us" + b == a + "-" + ("us" + b)
  {
    assert "-us" == "-" + "us";
  }

  lemma NamesAreTails(uk: string, us: string, uk': string, us': string)
    ensures BuildAppName(uk, us) == BuildAppName(uk', us') <==> NameTail(uk, us) == NameTail(uk', us')
  {
    var tail, tail' := NameTail(uk, us), NameTail(uk', us');
    PrefixCancels("-uk", tail, tail');
    PrefixCancels(APP_NAME_PREFIX, "-uk" + tail, "-uk" + tail');
  }

  /** When exactly two releases share an app name, for any versions at all. */
  lemma NamesCollide(uk: string, us: string, uk': string, us': string)
    ensures BuildAppName(uk, us) == BuildAppName(uk', us')
       <==> NameRuns(Runs(uk), Runs(us)) == NameRuns(Runs(uk'), Runs(us'))
  {
    NamesAreTails(uk, us, uk', us');
    TailIsJoined(uk, us);
    TailIsJoined(uk', us');
    RunsAreWords(uk);
    RunsAreWords(us);
    RunsAreWords(uk');
    RunsAreWords(us');
    NameRunsAreWords(Runs(uk), Runs(us));
    NameRunsAreWords(Runs(uk'), Runs(us'));
    JoinInjective(NameRuns(Runs(uk), Runs(us)), NameRuns(Runs(uk'), Runs(us')));
  }

  /** The run reads like the start of a US version. */
  predicate LooksMarked(w: string) {
    |w| > 2 && w[..2] == "us"
  }

  /** A run after the first reads like the start of a US version. */
  predicate Ambiguous(runs: seq<string>) {
    exists i :: 1 <= i < |runs| && LooksMarked(runs[i])
  }

  lemma MarkedLooksMarked(w: string)
    requires IsWord(w)
    ensures LooksMarked("us" + w) && ("us" + w)[2..] == w
  {
  }

  /** A second, later cut is at a run of the US version that looks marked. */
  lemma LaterCut(uk: seq<string>, us: seq<string>, uk': seq<string>, us': seq<string>)
    requires AreWords(us') && us != [] && us' != []
    requires |uk| < |uk'| && NameRuns(uk, us) == NameRuns(uk', us')
    ensures Ambiguous(us)
  {
    assert us'[0] in us';
    MarkedLooksMarked(us'[0]);
    assert NameRuns(uk', us')[|uk'|] == "us" + us'[0];
    assert NameRuns(uk, us)[|uk'|] == us[|uk'| - |uk|];
  }

  /** An earlier one is at a run of the UK version. */
  lemma EarlierCut(uk: seq<string>, us: seq<string>, uk': seq<string>, us': seq<string>)
    requires AreWords(us') && us != [] && us' != []
    requires 1 <= |uk'| < |uk| && NameRuns(uk, us) == NameRuns(uk', us')
    ensures Ambiguous(uk)
  {
    assert us'[0] in us';
    MarkedLooksMarked(us'[0]);
    assert NameRuns(uk', us')[|uk'|] == "us" + us'[0];
    assert NameRuns(uk, us)[|uk'|] == uk[|uk'|];
  }

  lemma SameCut(uk: seq<string>, us: seq<string>, uk': seq<string>, us': seq<string>)
    requires us != [] && us' != [] && |uk| == |uk'| && NameRuns(uk, us) == NameRuns(uk', us')
    ensures uk == uk' && us == us'
  {
    var all, n := NameRuns(uk, us), |uk|;
    assert uk == all[..n] && uk' == all[..n];
    assert us[1..] == all[n + 1..] && us'[1..] == all[n + 1..];
    assert ("us" + us[0])[2..] == us[0] && ("us" + us'[0])[2..] == us'[0];
    assert all[n] == "us" + us[0] && all[n] == "us" + us'[0];
    assert us == [us[0]] + us[1..] && us' == [us'[0]] + us'[1..];
  }

  /** Unless a run after the first looks like the start of a US version, there is only one place to
      cut the runs of a name in two. */
  lemma CutIsUnique(uk: seq<string>, us: seq<string>, uk': seq<string>, us': seq<string>)
    requires AreWords(us) && AreWords(us') && uk != [] && us != [] && uk' != [] && us' != []
    requires NameRuns(uk, us) == NameRuns(uk', us')
    ensures Ambiguous(uk) || Ambiguous(us) || (uk == uk' && us == us')
  {
    if |uk| < |uk'| {
      LaterCut(uk, us, uk', us');
    } else if |uk'| < |uk| {
      EarlierCut(uk, us, uk', us');
    } else {
      SameCut(uk, us, uk', us');
    }
  }

  /** A version with given runs. */
  lemma RunsOfJoin(runs: seq<string>)
    requires AreWords(runs) && runs != [] && forall w <- runs :: Lower(w) == w
    ensures Runs(Join(runs)) == runs
  {
    WordsOfJoin(runs);
    forall i | 0 <= i < |runs| ensures LowerAll(runs)[i] == runs[i] {
      assert runs[i] in runs;
    }
  }

  lemma {:induction false} LowerDrops(w: string, k: nat)
    requires Lower(w) == w && k <= |w|
    ensures Lower(w[k..]) == w[k..] && Lower(w[..k]) == w[..k]
  {
    assert w == w[..k] + w[k..];
    LowerConcat(w[..k], w[k..]);
    var a, b := Lower(w[..k]), Lower(w[k..]);
    assert a == (a + b)[..k] && b == (a + b)[k..];
  }

  ghost predicate LowerWords(words: seq<string>) {
    AreWords(words) && forall w <- words :: Lower(w) == w
  }

  lemma UnmarkedIsWord(w: string)
    requires IsWord(w) && Lower(w) == w && LooksMarked(w)
    ensures IsWord(w[2..]) && Lower(w[2..]) == w[2..] && w == "us" + w[2..]
  {
    forall c <- w[2..] ensures Alphanumeric(c) {
      assert c in w;
    }
    LowerDrops(w, 2);
    assert w == w[..2] + w[2..];
  }

  /** Cutting at a run that looks marked gives another pair of run lists for the same name. */
  lemma OtherCut(all: seq<string>, i: nat) returns (uk: seq<string>, us: seq<string>)
    requires LowerWords(all) && 1 <= i < |all| && LooksMarked(all[i])
    ensures LowerWords(uk) && LowerWords(us) && |uk| == i && us != [] && NameRuns(uk, us) == all
  {
    assert all[i] in all;
    UnmarkedIsWord(all[i]);
    uk, us := all[..i], [all[i][2..]] + all[i + 1..];
    forall w <- uk ensures IsWord(w) && Lower(w) == w {
      assert w in all;
    }
    forall w <- us ensures IsWord(w) && Lower(w) == w {
      assert w == all[i][2..] || w in all[i + 1..];
      assert w in all[i + 1..] ==> w in all;
    }
    assert all == all[..i] + [all[i]] + all[i + 1..];
  }

  lemma NameRunsAreLower(uk: string, us: string)
    ensures LowerWords(NameRuns(Runs(uk), Runs(us)))
  {
    RunsAreWords(uk);
    RunsAreWords(us);
    NameRunsAreWords(Runs(uk), Runs(us));
    forall w <- NameRuns(Runs(uk), Runs(us)) ensures Lower(w) == w {
      if w == "us" + Runs(us)[0] {
        assert Runs(us)[0] in Runs(us);
        LowerConcat("us", Runs(us)[0]);
        LowerKeeps("us");
      } else {
        assert w in Runs(uk) || w in Runs(us)[1..];
        assert w in Runs(us)[1..] ==> w in Runs(us);
      }
    }
  }

  /** An ambiguous version shares its name with a different pair of versions. */
  lemma AmbiguousNameIsShared(uk: string, us: string) returns (uk': string, us': string)
    requires Ambiguous(Runs(uk)) || Ambiguous(Runs(us))
    ensures BuildAppName(uk, us) == BuildAppName(uk', us') && Runs(uk) != Runs(uk')
  {
    var all := NameRuns(Runs(uk), Runs(us));
    NameRunsAreLower(uk, us);
    var i: nat;
    if Ambiguous(Runs(uk)) {
      i :| 1 <= i < |Runs(uk)| && LooksMarked(Runs(uk)[i]);
      assert all[i] == Runs(uk)[i];
    } else {
      var k :| 1 <= k < |Runs(us)| && LooksMarked(Runs(us)[k]);
      i := |Runs(uk)| + k;
      assert all[i] == Runs(us)[k];
    }
    var a, b := OtherCut(all, i);
    uk', us' := Join(a), Join(b);
    RunsOfJoin(a);
    RunsOfJoin(b);
    NamesCollide(uk, us, uk', us');
  }

  /** The name stands for these runs only. */
  ghost predicate NameDetermines(uk: string, us: string) {
    forall uk', us' :: BuildAppName(uk, us) == BuildAppName(uk', us') ==> Runs(uk) == Runs(uk') && Runs(us) == Runs(us')
  }

  /** An app name determines both versions, up to case and punctuation, if and only if no run of
      either version after its first starts with "us" and goes on. */
  lemma NameDeterminesExactly(uk: string, us: string)
    ensures NameDetermines(uk, us) <==> !Ambiguous(Runs(uk)) && !Ambiguous(Runs(us))
  {
    if Ambiguous(Runs(uk)) || Ambiguous(Runs(us)) {
      var uk', us' := AmbiguousNameIsShared(uk, us);
    } else {
      forall uk', us' | BuildAppName(uk, us) == BuildAppName(uk', us')
        ensures Runs(uk) == Runs(uk') && Runs(us) == Runs(us')
      {
        NamesCollide(uk, us, uk', us');
        RunsAreWords(us);
        RunsAreWords(us');
        CutIsUnique(Runs(uk), Runs(us), Runs(uk'), Runs(us'));
      }
    }
  }

  // ----- dotted versions -----

  /** Digits in groups separated by single dots, as in "2.45.4". */
  predicate Dotted(version: string) {
    && version != ""
    && Digit(version[0]) && Digit(version[|version| - 1])
    && SingleDots(version)
  }

  predicate SingleDots(s: string) {
    && (forall i :: 0 <= i < |s| ==> Digit(s[i]) || s[i] == '.')
    && (forall i :: 0 < i < |s| && s[i] == '.' ==> s[i - 1] != '.')
  }

  function Dashed(s: string): (r: string)
    ensures |r| == |s|
    ensures forall i :: 0 <= i < |s| ==> r[i] == if s[i] == '.' then '-' else s[i]
  {
    seq(|s|, i requires 0 <= i < |s| => if s[i] == '.' then '-' else s[i])
  }

  lemma {:induction false} SqueezedDotted(s: string)
    requires SingleDots(s)
    ensures Squeezed(s) == Dashed(s)
  {
    if s != "" {
      var n := |s| - 1;
      SqueezedDotted(s[..n]);
      assert Dashed(s) == Dashed(s[..n]) + [if s[n] == '.' then '-' else s[n]];
    }
  }

  lemma SlugOfDotted(version: string)
    requires Dotted(version)
    ensures Slug(version) == Dashed(version)
  {
    SqueezedDotted(version);
    LowerKeeps(Dashed(version));
  }

  lemma DashedInjective(a: string, b: string)
    requires SingleDots(a) && SingleDots(b) && Dashed(a) == Dashed(b)
    ensures a == b
  {
    forall i | 0 <= i < |a| ensures a[i] == b[i] {
      assert Dashed(a)[i] == Dashed(b)[i];
    }
  }

  lemma {:induction false} WordsAreParts(s: string, w: string)
    requires w in Words(s)
    ensures forall c <- w :: c in s
  {
    var n := |s| - 1;
    var words := Words(s[..n]);
    if w in words {
      WordsAreParts(s[..n], w);
    } else if n > 0 && Alphanumeric(s[n - 1]) {
      assert words[|words| - 1] in words;
      WordsAreParts(s[..n], words[|words| - 1]);
    }
  }

  lemma RunsArePartsOfSlug(version: string, w: string)
    requires w in Runs(version)
    ensures forall c <- w :: c in Slug(version)
  {
    SlugIsJoinedRuns(version);
    RunsAreWords(version);
    WordsOfJoin(Runs(version));
    WordsAreParts(Slug(version), w);
  }

  lemma DottedHasNoLetters(version: string)
    requires Dotted(version)
    ensures forall c <- Slug(version) :: c == '-' || Digit(c)
  {
    SlugOfDotted(version);
  }

  lemma DottedIsPlain(version: string)
    requires Dotted(version)
    ensures !Ambiguous(Runs(version))
  {
    DottedHasNoLetters(version);
    forall i | 1 <= i < |Runs(version)| ensures !LooksMarked(Runs(version)[i]) {
      var w := Runs(version)[i];
      RunsArePartsOfSlug(version, w);
      assert w != "" ==> w[0] in w;
      assert |w| > 2 ==> w[..2][0] == w[0];
    }
  }

  /** Releases of ordinary dotted versions share a name only if they share both versions. */
  lemma DottedNamesAreUnique(uk: string, us: string, uk': string, us': string)
    requires Dotted(uk) && Dotted(us) && Dotted(uk') && Dotted(us')
    ensures BuildAppName(uk, us) == BuildAppName(uk', us') <==> uk == uk' && us == us'
  {
    DottedIsPlain(uk);
    DottedIsPlain(us);
    NameDeterminesExactly(uk, us);
    DottedRunsAreUnique(uk, uk');
    DottedRunsAreUnique(us, us');
  }

  lemma DottedRunsAreUnique(v: string, v': string)
    requires Dotted(v) && Dotted(v')
    ensures Runs(v) == Runs(v') <==> v == v'
  {
    SlugsCollide(v, v');
    SlugOfDotted(v);
    SlugOfDotted(v');
    if Dashed(v) == Dashed(v') {
      DashedInjective(v, v');
    }
  }
}
