/** Output paths spelled out: which directory and which filename a URL path gets, component by
    component and character by character. */
module PathShape {
  import opened Common
  import opened Picking
  import opened OutputPath

  /** The characters that survive in a file system name. */
  predicate Survives(c: char, wide: char -> bool) {
    || c in "-_."
    || if c as int >= 128 then wide(c) else 'A' <= c <= 'Z' || 'a' <= c <= 'z' || '0' <= c <= '9'
  }

  /** `r` is `s` with every other character replaced by an underscore. */
  ghost predicate Cleaned(r: string, s: string, wide: char -> bool) {
    |r| == |s| && forall i :: 0 <= i < |s| ==> r[i] == if Survives(s[i], wide) then s[i] else '_'
  }

  /** The directory name made of a path component. */
  ghost predicate Names(d: string, c: string, wide: char -> bool) {
    if c == "." || c == ".." then d == "_" else Cleaned(d, c, wide)
  }

  predicate OnlySlashes(s: string) {
    forall i :: 0 <= i < |s| ==> s[i] == '/'
  }

  function JoinBy(cs: seq<string>, sep: char): string {
    if cs == [] then "" else if |cs| == 1 then cs[0] else cs[0] + [sep] + JoinBy(cs[1..], sep)
  }

  ghost predicate SlashFree(cs: seq<string>) {
    forall i :: 0 <= i < |cs| ==> '/' !in cs[i]
  }

  /** Marks the components that are not empty. */
  function Solid(cs: seq<string>): (marked: seq<bool>)
    ensures |marked| == |cs|
  {
    seq(|cs|, i requires 0 <= i < |cs| => cs[i] != "")
  }

  // ----- characters -----------------------------------------------------------------------------

  lemma WhitelistIsSurvivors(c: char, wide: char -> bool)
    ensures Whitelisted(c, wide) <==> Survives(c, wide)
  {
    assert c in "-_." <==> c == '-' || c == '_' || c == '.';
  }

  lemma SanitizeIsCleaned(s: string, wide: char -> bool)
    ensures Cleaned(SanitizePathSegment(s, wide), s, wide)
  {
    forall i | 0 <= i < |s|
      ensures SanitizePathSegment(s, wide)[i] == if Survives(s[i], wide) then s[i] else '_'
    {
      WhitelistIsSurvivors(s[i], wide);
    }
  }

  // ----- trimming and joining ---------------------------------------------------------------------

  lemma {:induction false} TrimsLead(lead: string, x: string)
    requires OnlySlashes(lead) && (x == "" || x[0] != '/')
    ensures TrimStart(lead + x) == x
    decreases |lead|
  {
    if lead == "" {
      assert lead + x == x;
    } else {
      assert (lead + x)[0] == '/' && (lead + x)[1..] == lead[1..] + x;
      TrimsLead(lead[1..], x);
    }
  }

  lemma {:induction false} TrimsTrail(x: string, trail: string)
    requires OnlySlashes(trail) && (x == "" || x[|x| - 1] != '/')
    ensures TrimEnd(x + trail) == x
    decreases |trail|
  {
    if trail == "" {
      assert x + trail == x;
    } else {
      var t := trail[..|trail| - 1];
      assert (x + trail)[|x + trail| - 1] == '/' && (x + trail)[..|x + trail| - 1] == x + t;
      TrimsTrail(x, t);
    }
  }

  lemma {:induction false} JoinSnoc(cs: seq<string>, c: string, sep: char)
    requires cs != []
    ensures JoinBy(cs + [c], sep) == JoinBy(cs, sep) + [sep] + c
    decreases |cs|
  {
    assert (cs + [c])[1..] == cs[1..] + [c];
    if |cs| == 1 {
      assert [c][1..] == [] && cs[1..] == [];
      assert [] + [c] == [c];
    } else {
      JoinSnoc(cs[1..], c, sep);
    }
  }

  lemma {:induction false} JoinIsModel(cs: seq<string>)
    ensures Join(cs) == JoinBy(cs, '/')
    decreases |cs|
  {
    if |cs| > 1 {
      JoinIsModel(cs[1..]);
    }
  }

  lemma {:induction false} SplitOfJoin(cs: seq<string>)
    requires cs != [] && SlashFree(cs)
    ensures Split(JoinBy(cs, '/')) == cs
    decreases |cs|
  {
    if |cs| == 1 {
      SplitWithoutSlash(cs[0]);
    } else {
      SplitOfJoin(cs[1..]);
      SplitAtSlash(cs[0], JoinBy(cs[1..], '/'));
    }
  }

  lemma {:induction false} NonEmptyPicks(cs: seq<string>)
    ensures NonEmpty(cs) == Pick(cs, Solid(cs))
    decreases |cs|
  {
    if cs != [] {
      NonEmptyPicks(cs[1..]);
      assert Solid(cs)[1..] == Solid(cs[1..]);
    }
  }

  lemma {:induction false} PickAll(cs: seq<string>)
    requires forall i :: 0 <= i < |cs| ==> cs[i] != ""
    ensures Pick(cs, Solid(cs)) == cs
    decreases |cs|
  {
    if cs != [] {
      PickAll(cs[1..]);
      assert Solid(cs)[1..] == Solid(cs[1..]);
    }
  }

  lemma JoinStarts(cs: seq<string>, sep: char)
    requires cs != [] && cs[0] != ""
    ensures JoinBy(cs, sep) != "" && JoinBy(cs, sep)[0] == cs[0][0]
  {
  }

  lemma {:induction false} JoinEnds(cs: seq<string>, sep: char)
    requires cs != [] && cs[|cs| - 1] != ""
    ensures JoinBy(cs, sep) != ""
    ensures var last := cs[|cs| - 1]; JoinBy(cs, sep)[|JoinBy(cs, sep)| - 1] == last[|last| - 1]
    decreases |cs|
  {
    if |cs| > 1 {
      JoinEnds(cs[1..], sep);
    }
  }

  // ----- the directory ----------------------------------------------------------------------------

  lemma EndsBeforeSlash(front: string, t: string)
    requires '/' !in t
    ensures BeforeLastSlash(front + ['/'] + t) == Some(front)
  {
    BeforeLastSlashIgnoresTail(front + ['/'], t);
    assert (front + ['/'])[..|front|] == front;
  }

  lemma NoSlash(t: string)
    requires '/' !in t
    ensures BeforeLastSlash(t) == None
  {
    BeforeLastSlashIgnoresTail("", t);
    assert "" + t == t;
  }

  lemma JoinOne(c: string, sep: char)
    ensures JoinBy([c], sep) == c
  {
  }

  lemma DirectoryPart(cs: seq<string>)
    requires cs != [] && SlashFree(cs)
    ensures BeforeLastSlash(JoinBy(cs, '/')) == if |cs| == 1 then None else Some(JoinBy(cs[..|cs| - 1], '/'))
  {
    hide JoinBy, BeforeLastSlash;
    var n := |cs| - 1;
    if n == 0 {
      assert cs == [cs[0]];
      JoinOne(cs[0], '/');
      NoSlash(cs[0]);
    } else {
      assert cs == cs[..n] + [cs[n]];
      JoinSnoc(cs[..n], cs[n], '/');
      EndsBeforeSlash(JoinBy(cs[..n], '/'), cs[n]);
    }
  }

  /** The directory of a path is made of its components but the last, without the empty ones: of a path
      of n non-empty components, exactly the first n - 1, each kept as far as its characters survive,
      and dot-segments replaced. */
  lemma DirectoryIs(lead: string, cs: seq<string>, endsWithSlash: bool, wide: char -> bool) returns (ds: seq<string>)
    requires OnlySlashes(lead) && SlashFree(cs) && cs != [] && cs[0] != ""
    ensures var p := UrlPath(lead + JoinBy(cs, '/'), false, endsWithSlash);
            ToDirectory(p, wide) == if |cs| == 1 then "" else JoinBy(ds, '/') + "/"
    ensures var front := cs[..|cs| - 1];
            var kept := Pick(front, Solid(front));
            |ds| == |kept| && forall i :: 0 <= i < |ds| ==> Names(ds[i], kept[i], wide)
    ensures (forall i :: 0 <= i < |cs| ==> cs[i] != "") ==>
              |ds| == |cs| - 1 && forall i :: 0 <= i < |ds| ==> Names(ds[i], cs[i], wide)
  {
    var n := |cs| - 1;
    var front := cs[..n];
    JoinStarts(cs, '/');
    TrimsLead(lead, JoinBy(cs, '/'));
    DirectoryPart(cs);
    NonEmptyPicks(front);
    var kept := Pick(front, Solid(front));
    ds := NeutralizeAll(kept, wide);
    JoinIsModel(ds);
    if forall i :: 0 <= i < |cs| ==> cs[i] != "" {
      PickAll(front);
    }
    if n > 0 {
      SplitOfJoin(front);
    }
    hide JoinBy, Split, NonEmpty, TrimStart, BeforeLastSlash, Join, Pick;
    forall i | 0 <= i < |ds|
      ensures Names(ds[i], kept[i], wide)
    {
      SanitizeIsCleaned(kept[i], wide);
    }
  }

  /** It is empty if and only if the path is the root or has no slash behind the leading ones. */
  lemma DirectoryEmptyIff(lead: string, x: string, isRoot: bool, endsWithSlash: bool, wide: char -> bool)
    requires OnlySlashes(lead) && (x == "" || x[0] != '/')
    ensures ToDirectory(UrlPath(lead + x, isRoot, endsWithSlash), wide) == "" <==> isRoot || '/' !in x
  {
    TrimsLead(lead, x);
    SlashFound(x);
  }

  lemma {:induction false} SlashFound(x: string)
    ensures BeforeLastSlash(x).None? <==> '/' !in x
    decreases |x|
  {
    if x != "" {
      SlashFound(x[..|x| - 1]);
      assert x == x[..|x| - 1] + [x[|x| - 1]];
    }
  }

  // ----- the filename -----------------------------------------------------------------------------

  lemma {:induction false} ReplaceJoins(cs: seq<string>)
    requires SlashFree(cs)
    ensures Replace(JoinBy(cs, '/'), '/', '-') == JoinBy(cs, '-')
    decreases |cs|
  {
    if |cs| > 1 {
      ReplaceJoins(cs[1..]);
      assert Replace(cs[0], '/', '-') == cs[0];
      var rest := JoinBy(cs[1..], '/');
      assert Replace(cs[0] + "/" + rest, '/', '-') == cs[0] + "-" + Replace(rest, '/', '-');
    } else if |cs| == 1 {
      assert Replace(cs[0], '/', '-') == cs[0];
    }
  }

  lemma TrimmedIs(lead: string, x: string, trail: string)
    requires OnlySlashes(lead) && OnlySlashes(trail) && (x == "" || (x[0] != '/' && x[|x| - 1] != '/'))
    ensures TrimEnd(TrimStart(lead + x + trail)) == x
  {
    if x == "" {
      assert lead + x + trail == (lead + trail) + "";
      TrimsLead(lead + trail, "");
    } else {
      assert lead + x + trail == lead + (x + trail);
      TrimsLead(lead, x + trail);
      TrimsTrail(x, trail);
    }
  }

  lemma CleanedThroughSpaces(s: string, wide: char -> bool)
    ensures Cleaned(SanitizePathSegment(Replace(s, ' ', '_'), wide), s, wide)
  {
    SanitizeIsCleaned(Replace(s, ' ', '_'), wide);
  }

  lemma SlugIs(raw: string, lead: string, cs: seq<string>, trail: string, decode: string -> string, wide: char -> bool)
    requires OnlySlashes(lead) && OnlySlashes(trail) && SlashFree(cs) && decode(raw) == lead + JoinBy(cs, '/') + trail
    requires cs == [] || (cs[0] != "" && cs[|cs| - 1] != "")
    ensures Cleaned(Slug(raw, decode, wide), JoinBy(cs, '-'), wide)
  {
    if cs != [] {
      JoinStarts(cs, '/');
      JoinEnds(cs, '/');
      assert cs[0][0] != '/' && cs[|cs| - 1][|cs[|cs| - 1]| - 1] != '/';
    } else {
      JoinsNothing();
    }
    hide TrimStart, TrimEnd, Replace, Cleaned, SanitizePathSegment, OnlySlashes, SlashFree, JoinBy;
    TrimmedIs(lead, JoinBy(cs, '/'), trail);
    ReplaceJoins(cs);
    CleanedThroughSpaces(JoinBy(cs, '-'), wide);
  }

  lemma JoinsNothing()
    ensures JoinBy([], '/') == "" == JoinBy([], '-')
  {
  }

  /** The filename of a page: its decoded components joined by dashes and cleaned, a mark for device
      names, a mark for a trailing slash, and the extension of the format. */
  lemma FilenameIs(p: UrlPath, lead: string, cs: seq<string>, trail: string, f: Option<OutputFormat>,
                   decode: string -> string, reserved: string -> bool, wide: char -> bool) returns (slug: string)
    requires !p.isRoot && OnlySlashes(lead) && OnlySlashes(trail) && SlashFree(cs)
    requires decode(p.raw) == lead + JoinBy(cs, '/') + trail && (cs == [] || (cs[0] != "" && cs[|cs| - 1] != ""))
    ensures Cleaned(slug, JoinBy(cs, '-'), wide)
    ensures var name := slug + (if reserved(slug) then "_safe" else "");
            var marked := name + (if p.endsWithSlash && name != "" then "_" else "");
            ToSafeFilename(p, f, decode, reserved, wide) ==
            marked + (match f case Some(Json) => ".json" case Some(PlainText) => ".txt" case _ => ".md")
  {
    slug := Slug(p.raw, decode, wide);
    SlugIs(p.raw, lead, cs, trail, decode, wide);
    hide Slug, Cleaned, JoinBy;
    var name := slug + (if reserved(slug) then "_safe" else "");
    assert name == AvoidDevice(slug, reserved);
    var marked := name + (if p.endsWithSlash && name != "" then "_" else "");
    assert marked == Stem(p, decode, reserved, wide);
    hide Stem;
    ExtensionIs(marked, f);
  }

  lemma ExtensionIs(name: string, f: Option<OutputFormat>)
    ensures name + "." + Extension(f) ==
            name + (match f case Some(Json) => ".json" case Some(PlainText) => ".txt" case _ => ".md")
  {
    var e := Extension(f);
    assert name + "." + e == name + ("." + e);
  }

  /** The root is the index page of its format. */
  lemma RootFilename(p: UrlPath, f: Option<OutputFormat>, decode: string -> string, reserved: string -> bool,
                     wide: char -> bool)
    requires p.isRoot
    ensures ToSafeFilename(p, f, decode, reserved, wide) ==
            match f case Some(Json) => "index.json" case Some(PlainText) => "index.txt" case _ => "index.md"
    ensures ToDirectory(p, wide) == ""
  {
  }

  /** The full path is the output root, the directory and the filename. */
  lemma FullPathIs(domain: string, p: UrlPath, f: Option<OutputFormat>, decode: string -> string,
                   reserved: string -> bool, wide: char -> bool)
    ensures ToFullPath(domain, p, f, decode, reserved, wide)
         == "./output/" + domain + "/" + ToDirectory(p, wide) + ToSafeFilename(p, f, decode, reserved, wide)
  {
    hide ToDirectory, ToSafeFilename;
    assert ToDirectory(p, wide) == "" ==>
             "./output/" + domain + "/" + ToDirectory(p, wide) == "./output/" + domain + "/";
  }

  // ----- the URL path -----------------------------------------------------------------------------

  lemma {:induction false} BeforeStops(a: string, b: string, c: char)
    requires c !in a
    ensures Before(a + b, c) == a + Before(b, c)
    decreases |a|
  {
    if a == "" {
      assert a + b == b;
    } else {
      assert (a + b)[1..] == a[1..] + b;
      BeforeStops(a[1..], b, c);
    }
  }

  lemma StripsQuery(clean: string, rest: string)
    requires '?' !in clean && '#' !in clean && (rest == "" || rest[0] == '?' || rest[0] == '#')
    ensures Before(Before(clean + rest, '?'), '#') == clean
  {
    BeforeStops(clean, rest, '?');
    BeforeStops(clean, Before(rest, '?'), '#');
  }

  /** A URL path is the part in front of query and fragment, rooted, without its trailing slashes; the
      flags say whether it is the root and whether it had any. */
  lemma UrlPathIs(clean: string, rest: string) returns (trail: string)
    requires '?' !in clean && '#' !in clean && (rest == "" || rest[0] == '?' || rest[0] == '#')
    ensures var rooted := Rooted(clean);
            var p := FromUrlPath(clean + rest);
            && (p.isRoot <==> clean == "" || clean == "/")
            && (p.endsWithSlash <==> clean != "" && clean != "/" && clean[|clean| - 1] == '/')
            && OnlySlashes(trail) && rooted == p.raw + trail && (trail != "" <==> p.endsWithSlash)
            && (p.isRoot || p.raw == "" || p.raw[|p.raw| - 1] != '/')
  {
    StripsQuery(clean, rest);
    PathOfClean(clean + rest, clean);
    LastOfRooted(clean);
    hide FromUrlPath, TrimEnd, Rooted;
    trail := NormalizedIs(Rooted(clean));
  }

  lemma PathOfClean(path: string, clean: string)
    requires Before(Before(path, '?'), '#') == clean
    ensures var normalized := Rooted(clean);
            && normalized != ""
            && var slash := normalized[|normalized| - 1] == '/' && normalized != "/";
               FromUrlPath(path)
               == UrlPath(if slash then TrimEnd(normalized) else normalized, normalized == "/", slash)
  {
    hide Before, TrimEnd;
  }

  lemma LastOfRooted(clean: string)
    ensures var rooted := Rooted(clean);
            && (rooted == "/" <==> clean == "" || clean == "/")
            && (clean != "" ==> rooted[|rooted| - 1] == clean[|clean| - 1])
  {
    assert |"/" + clean| == |clean| + 1;
  }

  function Rooted(clean: string): string {
    if clean == "" || clean[0] != '/' then "/" + clean else clean
  }

  lemma NormalizedIs(normalized: string) returns (trail: string)
    requires normalized != ""
    ensures var slash := normalized[|normalized| - 1] == '/' && normalized != "/";
            var raw := if slash then TrimEnd(normalized) else normalized;
            && OnlySlashes(trail) && normalized == raw + trail && (trail != "" <==> slash)
            && (normalized == "/" || raw == "" || raw[|raw| - 1] != '/')
  {
    trail := "";
    if normalized[|normalized| - 1] == '/' && normalized != "/" {
      trail := TrimEndSplits(normalized);
    } else {
      assert normalized + "" == normalized;
    }
  }

  lemma {:induction false} TrimEndSplits(s: string) returns (trail: string)
    ensures OnlySlashes(trail) && s == TrimEnd(s) + trail && (TrimEnd(s) == "" || TrimEnd(s)[|TrimEnd(s)| - 1] != '/')
    ensures s != "" && s[|s| - 1] == '/' ==> trail != ""
    decreases |s|
  {
    trail := "";
    if s != "" && s[|s| - 1] == '/' {
      var t := TrimEndSplits(s[..|s| - 1]);
      trail := t + "/";
      assert s == s[..|s| - 1] + "/";
    } else {
      assert s + "" == s;
    }
  }

  /** What a query and a fragment add: an underscore and the text, with the six separators replaced. */
  lemma QuerySuffixIs(query: string, fragment: string) returns (q: string, f: string)
    ensures |q| == |query| && forall i :: 0 <= i < |q| ==>
              q[i] == if query[i] in ['?', '&', ':', '=', '#', '/'] then '_' else query[i]
    ensures |f| == |fragment| && forall i :: 0 <= i < |f| ==>
              f[i] == if fragment[i] in ['?', '&', ':', '=', '#', '/'] then '_' else fragment[i]
    ensures QuerySuffix(query, fragment)
            == (if query == "" then "" else "_" + q) + (if fragment == "" then "" else "_" + f)
  {
    q, f := SanitizeQueryPart(query), SanitizeQueryPart(fragment);
  }
}
