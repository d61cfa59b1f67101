/** Output path building: UTF-8 safe truncation, URL paths, sanitised directories and filenames. */
module OutputPath {
  import opened Common
  import opened Hex

  // ----- truncation ---------------------------------------------------------------------------

  /** Bytes of a character in UTF-8 (section 3 of RFC 3629). */
  function Utf8Width(c: char): nat {
    var n := c as int;
    if n < 0x80 then 1 else if n < 0x800 then 2 else if n < 0x1_0000 then 3 else 4
  }

  /** The fewest bytes whose payload bits, 7, 11, 16 and 21 of them, hold the character. */
  lemma WidthIsLeast(c: char)
    ensures var n, w := c as int, Utf8Width(c);
            && 1 <= w <= 4 && n < [0x80, 0x800, 0x1_0000, 0x20_0000][w - 1]
            && (w > 1 ==> n >= [0x80, 0x800, 0x1_0000][w - 2])
  {
  }

  function Utf8Len(s: string): nat {
    if s == "" then 0 else Utf8Len(s[..|s| - 1]) + Utf8Width(s[|s| - 1])
  }

  /** The last character start at or below `budget`, scanning upwards from character `k`. */
  function LastStart(s: string, budget: nat, k: nat): (cut: nat)
    requires k < |s| && Utf8Len(s[..k]) <= budget
    ensures k <= cut < |s| && Utf8Len(s[..cut]) <= budget
    ensures cut + 1 < |s| ==> Utf8Len(s[..cut + 1]) > budget
    decreases |s| - k
  {
    if k + 1 < |s| && Utf8Len(s[..k + 1]) <= budget then LastStart(s, budget, k + 1) else k
  }

  /** `hash` is the 64-bit value of the standard hasher on `s`. */
  function TruncateWithHash(s: string, maxBytes: nat, hash: nat): string {
    if Utf8Len(s) <= maxBytes then s
    else
      s[..LastStart(s, PrefixBudget(maxBytes), 0)] + "_" + Render(hash, 8)
  }

  lemma {:induction false} Utf8LenConcat(a: string, b: string)
    ensures Utf8Len(a + b) == Utf8Len(a) + Utf8Len(b)
    decreases |b|
  {
    if b == "" {
      assert a + b == a;
    } else {
      assert (a + b)[..|a + b| - 1] == a + b[..|b| - 1];
      Utf8LenConcat(a, b[..|b| - 1]);
    }
  }

  lemma Utf8LenOfPrefix(s: string, j: nat, k: nat)
    requires j <= k <= |s|
    ensures Utf8Len(s[..j]) <= Utf8Len(s[..k])
    ensures j < k ==> Utf8Len(s[..j]) < Utf8Len(s[..k])
  {
    assert s[..k] == s[..j] + s[j..k];
    Utf8LenConcat(s[..j], s[j..k]);
  }

  lemma {:induction false} HexIsAscii(s: string)
    requires forall i :: 0 <= i < |s| ==> HexDigit(s[i])
    ensures Utf8Len(s) == |s|
  {
    if s != "" {
      HexIsAscii(s[..|s| - 1]);
    }
  }

  lemma SuffixIsNineBytes(hash: nat)
    ensures Utf8Len("_" + Render(hash, 8)) == 9 && |"_" + Render(hash, 8)| == 9
  {
    HexIsAscii(Render(hash, 8));
    Utf8LenConcat("_", Render(hash, 8));
    assert "_"[..0] == "";
  }

  /** `cut` characters are the longest prefix of `s` within `budget` bytes. */
  ghost predicate LongestWithin(s: string, cut: nat, budget: nat) {
    cut <= |s| && Utf8Len(s[..cut]) <= budget && forall j :: cut < j <= |s| ==> Utf8Len(s[..j]) > budget
  }

  lemma CutIsLongest(s: string, budget: nat)
    requires Utf8Len(s) > budget
    ensures s != "" && Utf8Len(s[..0]) <= budget && LongestWithin(s, LastStart(s, budget, 0), budget)
  {
    var cut := LastStart(s, budget, 0);
    assert s[..|s|] == s;
    forall j | cut < j <= |s|
      ensures Utf8Len(s[..j]) > budget
    {
      hide Utf8Len, LastStart;
      Utf8LenOfPrefix(s, cut + 1, j);
    }
  }

  lemma CutFits(s: string, budget: nat)
    requires s != "" && LongestWithin(s, LastStart(s, budget, 0), budget)
    ensures Utf8Len(s[..LastStart(s, budget, 0)]) <= budget
  {
  }

  function PrefixBudget(maxBytes: nat): nat {
    if maxBytes < 9 then 0 else maxBytes - 9
  }

  lemma LongForm(s: string, maxBytes: nat, hash: nat)
    requires Utf8Len(s) > maxBytes && s != ""
    ensures TruncateWithHash(s, maxBytes, hash)
            == s[..LastStart(s, PrefixBudget(maxBytes), 0)] + ("_" + Render(hash, 8))
  {
  }

  lemma LengthOfLongForm(s: string, cut: nat, hash: nat)
    requires cut <= |s|
    ensures Utf8Len(s[..cut] + ("_" + Render(hash, 8))) == Utf8Len(s[..cut]) + 9
  {
    SuffixIsNineBytes(hash);
    Utf8LenConcat(s[..cut], "_" + Render(hash, 8));
  }

  /** Truncation bound: short strings are unchanged; a long one keeps the longest run of whole
      characters that fits the prefix budget, followed by the 9-byte suffix; and the result
      respects the limit if and only if the string was short or the limit holds the suffix. */
  lemma TruncationBound(s: string, maxBytes: nat, hash: nat) returns (cut: nat)
    ensures Utf8Len(s) <= maxBytes ==> TruncateWithHash(s, maxBytes, hash) == s
    ensures Utf8Len(s) > maxBytes ==>
              && LongestWithin(s, cut, if maxBytes < 9 then 0 else maxBytes - 9)
              && TruncateWithHash(s, maxBytes, hash) == s[..cut] + ("_" + Render(hash, 8))
    ensures Utf8Len(TruncateWithHash(s, maxBytes, hash)) <= maxBytes <==> Utf8Len(s) <= maxBytes || maxBytes >= 9
  {
    hide Utf8Len, Render, LastStart, LongestWithin;
    cut := 0;
    if Utf8Len(s) > maxBytes {
      CutIsLongest(s, PrefixBudget(maxBytes));
      cut := LastStart(s, PrefixBudget(maxBytes), 0);
      LongForm(s, maxBytes, hash);
      CutFits(s, PrefixBudget(maxBytes));
      LengthOfLongForm(s, cut, hash);
    }
  }

  // ----- URL paths ----------------------------------------------------------------------------

  datatype UrlPath = UrlPath(raw: string, isRoot: bool, endsWithSlash: bool)

  /** Everything before the first `c`. */
  function Before(s: string, c: char): string {
    if s == "" || s[0] == c then "" else [s[0]] + Before(s[1..], c)
  }

  function TrimStart(s: string): string {
    if s != "" && s[0] == '/' then TrimStart(s[1..]) else s
  }

  function TrimEnd(s: string): string {
    if s != "" && s[|s| - 1] == '/' then TrimEnd(s[..|s| - 1]) else s
  }

  function FromUrlPath(path: string): UrlPath {
    var clean := Before(Before(path, '?'), '#');
    var normalized := if clean == "" || clean[0] != '/' then "/" + clean else clean;
    var isRoot := normalized == "/";
    var slash := normalized[|normalized| - 1] == '/' && !isRoot;
    UrlPath(if slash then TrimEnd(normalized) else normalized, isRoot, slash)
  }

  function SanitizeQueryPart(s: string): string {
    seq(|s|, i requires 0 <= i < |s| => if s[i] in "?&:=#/" then '_' else s[i])
  }

  const MAX_FILENAME_BODY_BYTES: nat := 180

  /** What distinguishes a URL with a query or a fragment from the bare path. */
  function QuerySuffix(query: string, fragment: string): string {
    (if query == "" then "" else "_" + SanitizeQueryPart(query)) +
    (if fragment == "" then "" else "_" + SanitizeQueryPart(fragment))
  }

  lemma TruncationKeepsNoSlash(s: string, maxBytes: nat, hash: nat)
    requires '/' !in s && s != ""
    ensures '/' !in TruncateWithHash(s, maxBytes, hash) && TruncateWithHash(s, maxBytes, hash) != ""
  {
  }

  /** The path of a URL with a query or a fragment: `hashOf` is the standard hasher. */
  function WithQuery(path: string, query: string, fragment: string, hashOf: string -> nat): UrlPath {
    if query == "" && fragment == "" then FromUrlPath(path)
    else UrlPath(FromUrlPath(path).raw + BoundedSuffix(query, fragment, hashOf), false, false)
  }

  function BoundedSuffix(query: string, fragment: string, hashOf: string -> nat): string {
    var suffix := QuerySuffix(query, fragment);
    TruncateWithHash(suffix, MAX_FILENAME_BODY_BYTES, hashOf(suffix))
  }

  lemma BoundedSuffixIsSafe(query: string, fragment: string, hashOf: string -> nat)
    requires query != "" || fragment != ""
    ensures var t := BoundedSuffix(query, fragment, hashOf);
            && t != "" && '/' !in t && Utf8Len(t) <= 180
            && (Utf8Len(QuerySuffix(query, fragment)) <= 180 ==> t == QuerySuffix(query, fragment))
  {
    var suffix := QuerySuffix(query, fragment);
    assert suffix != "" && '/' !in suffix;
    hide Utf8Len, TruncateWithHash;
    var _ := TruncationBound(suffix, MAX_FILENAME_BODY_BYTES, hashOf(suffix));
    TruncationKeepsNoSlash(suffix, MAX_FILENAME_BODY_BYTES, hashOf(suffix));
  }

  /** `from_url_with_query` after URL parsing: append a sanitised, bounded query and fragment. */
  method FromUrlWithQuery(path: string, query: string, fragment: string, hashOf: string -> nat) returns (p: UrlPath)
    ensures p == WithQuery(path, query, fragment, hashOf)
    ensures query != "" || fragment != "" ==>
              && !p.isRoot && !p.endsWithSlash && FromUrlPath(path).raw < p.raw
              && var suffix, added := QuerySuffix(query, fragment), p.raw[|FromUrlPath(path).raw|..];
                 Utf8Len(added) <= 180 && '/' !in added && (Utf8Len(suffix) <= 180 ==> added == suffix)
  {
    hide FromUrlPath, Utf8Len, TruncateWithHash;
    p := FromUrlPath(path);
    if query == "" && fragment == "" {
      return;
    }
    var suffix := "";
    if query != "" {
      suffix := suffix + "_" + SanitizeQueryPart(query);
    }
    if fragment != "" {
      suffix := suffix + "_" + SanitizeQueryPart(fragment);
    }
    assert suffix == QuerySuffix(query, fragment);
    var safe := TruncateWithHash(suffix, MAX_FILENAME_BODY_BYTES, hashOf(suffix));
    BoundedSuffixIsSafe(query, fragment, hashOf);
    assert (p.raw + safe)[|p.raw|..] == safe;
    p := UrlPath(p.raw + safe, false, false);
  }

  // ----- directories and filenames ----------------------------------------------------------------

  /** Alphanumeric: exactly the ASCII letters and digits below 128; `wide` decides the rest. */
  predicate Alphanumeric(c: char, wide: char -> bool) {
    if (c as int) < 128 then '0' <= c <= '9' || 'a' <= c <= 'z' || 'A' <= c <= 'Z' else wide(c)
  }

  predicate Whitelisted(c: char, wide: char -> bool) {
    Alphanumeric(c, wide) || c == '-' || c == '_' || c == '.'
  }

  function SanitizePathSegment(s: string, wide: char -> bool): (r: string)
    ensures |r| == |s| && forall i :: 0 <= i < |r| ==> Whitelisted(r[i], wide)
    ensures r in [".", ".."] ==> s == r
  {
    seq(|s|, i requires 0 <= i < |s| => if Whitelisted(s[i], wide) then s[i] else '_')
  }

  /** Split at every slash; `k` slashes give `k + 1` components. */
  function Split(s: string): (cs: seq<string>)
    ensures cs != [] && forall i :: 0 <= i < |cs| ==> '/' !in cs[i]
  {
    if s == "" then [""]
    else
      var rest := Split(s[1..]);
      if s[0] == '/' then [""] + rest else [[s[0]] + rest[0]] + rest[1..]
  }

  function NonEmpty(cs: seq<string>): seq<string> {
    if cs == [] then [] else (if cs[0] == "" then [] else [cs[0]]) + NonEmpty(cs[1..])
  }

  function Neutralize(c: string, wide: char -> bool): string {
    if c == "." || c == ".." then "_" else SanitizePathSegment(c, wide)
  }

  function NeutralizeAll(cs: seq<string>, wide: char -> bool): seq<string> {
    seq(|cs|, i requires 0 <= i < |cs| => Neutralize(cs[i], wide))
  }

  function Join(cs: seq<string>): string {
    if cs == [] then "" else if |cs| == 1 then cs[0] else cs[0] + "/" + Join(cs[1..])
  }

  /** Everything before the last slash, if there is one. */
  function BeforeLastSlash(s: string): Option<string> {
    if s == "" then None
    else if s[|s| - 1] == '/' then Some(s[..|s| - 1])
    else BeforeLastSlash(s[..|s| - 1])
  }

  function ToDirectory(p: UrlPath, wide: char -> bool): string {
    if p.isRoot then ""
    else
      match BeforeLastSlash(TrimStart(p.raw))
      case None => ""
      case Some(dir) => Join(NeutralizeAll(NonEmpty(Split(dir)), wide)) + "/"
  }

  datatype OutputFormat = Markdown | Json | PlainText

  function Extension(f: Option<OutputFormat>): string {
    if f == Some(Json) then "json" else if f == Some(PlainText) then "txt" else "md"
  }

  function Replace(s: string, from: char, to: char): string {
    seq(|s|, i requires 0 <= i < |s| => if s[i] == from then to else s[i])
  }

  /** The sanitised slug of a raw path; `decode` is percent-decoding, an arbitrary function. */
  function Slug(raw: string, decode: string -> string, wide: char -> bool): string {
    SanitizePathSegment(Replace(Replace(TrimEnd(TrimStart(decode(raw))), '/', '-'), ' ', '_'), wide)
  }

  /** `reserved` is the Windows device-name test, an arbitrary predicate. */
  function AvoidDevice(slug: string, reserved: string -> bool): string {
    if reserved(slug) then slug + "_safe" else slug
  }

  function Stem(p: UrlPath, decode: string -> string, reserved: string -> bool, wide: char -> bool): string {
    if p.isRoot then "index"
    else
      var safe := AvoidDevice(Slug(p.raw, decode, wide), reserved);
      if p.endsWithSlash && safe != "" then safe + "_" else safe
  }

  function ToSafeFilename(p: UrlPath, f: Option<OutputFormat>, decode: string -> string,
                          reserved: string -> bool, wide: char -> bool): string {
    Stem(p, decode, reserved, wide) + "." + Extension(f)
  }

  function ToFolderPath(domain: string, p: UrlPath, wide: char -> bool): string {
    var dir := ToDirectory(p, wide);
    if dir == "" then "./output/" + domain + "/" else "./output/" + domain + "/" + dir
  }

  function ToFullPath(domain: string, p: UrlPath, f: Option<OutputFormat>, decode: string -> string,
                      reserved: string -> bool, wide: char -> bool): string {
    ToFolderPath(domain, p, wide) + ToSafeFilename(p, f, decode, reserved, wide)
  }

  // ----- containment --------------------------------------------------------------------------------

  /** A component that resolution simply descends into: not empty and not a dot-segment
      (section 3.3 of RFC 3986), made of whitelisted characters. */
  ghost predicate SafeComponent(c: string, wide: char -> bool) {
    c != "" && c != "." && c != ".." && forall i :: 0 <= i < |c| ==> Whitelisted(c[i], wide)
  }

  /** Each component followed by a slash. */
  function Slashed(cs: seq<string>): string {
    if cs == [] then "" else cs[0] + "/" + Slashed(cs[1..])
  }

  lemma {:induction false} JoinIsSlashed(cs: seq<string>)
    requires cs != []
    ensures Join(cs) + "/" == Slashed(cs)
    decreases |cs|
  {
    if |cs| == 1 {
      assert Slashed(cs) == cs[0] + "/" + "";
    } else {
      JoinIsSlashed(cs[1..]);
      assert cs[0] + "/" + Join(cs[1..]) + "/" == cs[0] + "/" + (Join(cs[1..]) + "/");
    }
  }

  lemma {:induction false} NonEmptyKeepsOnlyNonEmpty(cs: seq<string>)
    ensures forall i :: 0 <= i < |NonEmpty(cs)| ==> NonEmpty(cs)[i] != "" && NonEmpty(cs)[i] in cs
    ensures cs != [] && cs[0] != "" ==> NonEmpty(cs) != []
    decreases |cs|
  {
    if cs != [] {
      NonEmptyKeepsOnlyNonEmpty(cs[1..]);
    }
  }

  lemma {:induction false} TrimStartHead(s: string)
    ensures TrimStart(s) == "" || TrimStart(s)[0] != '/'
  {
    if s != "" && s[0] == '/' {
      TrimStartHead(s[1..]);
    }
  }

  lemma {:induction false} BeforeLastSlashIsPrefix(s: string)
    ensures BeforeLastSlash(s).Some? ==>
              |BeforeLastSlash(s).value| < |s| && s[..|BeforeLastSlash(s).value|] == BeforeLastSlash(s).value
              && s[|BeforeLastSlash(s).value|] == '/'
    decreases |s|
  {
    if s != "" && s[|s| - 1] != '/' {
      BeforeLastSlashIsPrefix(s[..|s| - 1]);
    }
  }

  /** `to_directory` is a possibly empty list of safe components, each followed by a slash. */
  lemma DirectoryIsSafe(p: UrlPath, wide: char -> bool) returns (cs: seq<string>)
    ensures ToDirectory(p, wide) == Slashed(cs)
    ensures forall i :: 0 <= i < |cs| ==> SafeComponent(cs[i], wide)
  {
    cs := [];
    var trimmed := TrimStart(p.raw);
    if !p.isRoot && BeforeLastSlash(trimmed).Some? {
      var dir := BeforeLastSlash(trimmed).value;
      TrimStartHead(p.raw);
      BeforeLastSlashIsPrefix(trimmed);
      assert dir != "" && dir[0] == trimmed[0];
      NonEmptyKeepsOnlyNonEmpty(Split(dir));
      cs := NeutralizeAll(NonEmpty(Split(dir)), wide);
      forall i | 0 <= i < |cs|
        ensures SafeComponent(cs[i], wide)
      {
        NeutralizedIsSafe(NonEmpty(Split(dir))[i], wide);
      }
      JoinIsSlashed(cs);
    }
  }

  lemma NeutralizedIsSafe(c: string, wide: char -> bool)
    requires c != ""
    ensures SafeComponent(Neutralize(c, wide), wide)
  {
  }

  /** The filename is a safe component too: it has no separator and always ends in its extension. */
  lemma FilenameIsSafe(p: UrlPath, f: Option<OutputFormat>, decode: string -> string, reserved: string -> bool,
                       wide: char -> bool)
    ensures SafeComponent(ToSafeFilename(p, f, decode, reserved, wide), wide)
  {
    hide SafeComponent;
    var stem := Stem(p, decode, reserved, wide);
    assert forall i :: 0 <= i < |stem| ==> Whitelisted(stem[i], wide) by {
      hide Replace, TrimEnd, TrimStart, SanitizePathSegment;
    }
    hide Stem;
    WithExtensionIsSafe(stem, f, wide);
  }

  lemma WithExtensionIsSafe(name: string, f: Option<OutputFormat>, wide: char -> bool)
    requires forall i :: 0 <= i < |name| ==> Whitelisted(name[i], wide)
    ensures SafeComponent(name + "." + Extension(f), wide)
  {
  }

  /** Resolve a path component by component, as a file system does. */
  function Resolve(at: seq<string>, cs: seq<string>): seq<string>
    decreases |cs|
  {
    if cs == [] then at
    else
      var next :=
        if cs[0] == "" || cs[0] == "." then at
        else if cs[0] == ".." then (if at == [] then at else at[..|at| - 1])
        else at + [cs[0]];
      Resolve(next, cs[1..])
  }

  lemma {:induction false} SplitAtSlash(a: string, b: string)
    requires '/' !in a
    ensures Split(a + "/" + b) == [a] + Split(b)
    decreases |a|
  {
    if a == "" {
      assert a + "/" + b == "/" + b && ("/" + b)[1..] == b;
    } else {
      assert (a + "/" + b)[1..] == a[1..] + "/" + b;
      SplitAtSlash(a[1..], b);
      assert a == [a[0]] + a[1..];
    }
  }

  lemma {:induction false} SplitWithoutSlash(a: string)
    requires '/' !in a
    ensures Split(a) == [a]
  {
    if a != "" {
      SplitWithoutSlash(a[1..]);
      assert a == [a[0]] + a[1..];
    }
  }

  lemma {:induction false} SplitOfSlashed(cs: seq<string>, last: string, wide: char -> bool)
    requires SafeComponent(last, wide) && forall i :: 0 <= i < |cs| ==> SafeComponent(cs[i], wide)
    ensures Split(Slashed(cs) + last) == cs + [last]
    decreases |cs|
  {
    if cs == [] {
      assert Slashed(cs) + last == last;
      SplitWithoutSlash(last);
    } else {
      assert Slashed(cs) + last == cs[0] + "/" + (Slashed(cs[1..]) + last);
      SplitAtSlash(cs[0], Slashed(cs[1..]) + last);
      SplitOfSlashed(cs[1..], last, wide);
    }
  }

  lemma {:induction false} ResolveDescends(at: seq<string>, cs: seq<string>, wide: char -> bool)
    requires forall i :: 0 <= i < |cs| ==> SafeComponent(cs[i], wide)
    ensures Resolve(at, cs) == at + cs
    decreases |cs|
  {
    if cs == [] {
      assert at + cs == at;
    } else {
      ResolveDescends(at + [cs[0]], cs[1..], wide);
      assert at + [cs[0]] + cs[1..] == at + cs;
    }
  }

  function OutputRoot(domain: string): string {
    "./output/" + domain + "/"
  }

  lemma FullPathForm(domain: string, p: UrlPath, f: Option<OutputFormat>, decode: string -> string,
                     reserved: string -> bool, wide: char -> bool)
    ensures ToFullPath(domain, p, f, decode, reserved, wide)
         == OutputRoot(domain) + (ToDirectory(p, wide) + ToSafeFilename(p, f, decode, reserved, wide))
  {
  }

  /** Every way along `cs` stays below `root` and ends exactly where the components say. */
  ghost predicate StaysBelow(root: seq<string>, cs: seq<string>) {
    forall k :: 0 <= k <= |cs| ==> Resolve(root, cs[..k]) == root + cs[..k]
  }

  lemma SafeStaysBelow(root: seq<string>, cs: seq<string>, wide: char -> bool)
    requires forall i :: 0 <= i < |cs| ==> SafeComponent(cs[i], wide)
    ensures StaysBelow(root, cs)
  {
    forall k | 0 <= k <= |cs|
      ensures Resolve(root, cs[..k]) == root + cs[..k]
    {
      hide Resolve, SafeComponent;
      ResolveDescends(root, cs[..k], wide);
    }
  }

  /** Output path containment: for every URL path, whatever percent-decoding yields, the full path is
      `./output/{domain}/` followed by a relative part whose component-by-component resolution starts
      below any directory `root` and never leaves it, not even part of the way. */
  lemma PathIsContained(domain: string, p: UrlPath, f: Option<OutputFormat>, decode: string -> string,
                        reserved: string -> bool, wide: char -> bool, root: seq<string>)
    ensures var full := ToFullPath(domain, p, f, decode, reserved, wide);
            && OutputRoot(domain) < full
            && var cs := Split(full[|OutputRoot(domain)|..]);
               StaysBelow(root, cs) && cs[|cs| - 1] == ToSafeFilename(p, f, decode, reserved, wide)
  {
    hide ToFullPath, ToDirectory, ToSafeFilename, Split, Resolve, Slashed, StaysBelow;
    var dirs := DirectoryIsSafe(p, wide);
    FilenameIsSafe(p, f, decode, reserved, wide);
    FullPathForm(domain, p, f, decode, reserved, wide);
    var name := ToSafeFilename(p, f, decode, reserved, wide);
    SplitOfSlashed(dirs, name, wide);
    SafeStaysBelow(root, dirs + [name], wide);
    var full, relative := ToFullPath(domain, p, f, decode, reserved, wide), Slashed(dirs) + name;
    assert name != "";
    hide SafeComponent;
    assert full[|OutputRoot(domain)|..] == relative;
  }

  // ----- when two queries share a file ------------------------------------------------------------

  lemma {:induction false} TrimStartKeepsTail(raw: string, t: string)
    requires '/' !in t
    ensures TrimStart(raw + t) == TrimStart(raw) + t
    decreases |raw|
  {
    if raw == "" {
      assert raw + t == t && TrimStart(raw) + t == t;
    } else {
      assert (raw + t)[0] == raw[0] && (raw + t)[1..] == raw[1..] + t;
      if raw[0] == '/' {
        TrimStartKeepsTail(raw[1..], t);
      }
    }
  }

  lemma {:induction false} BeforeLastSlashIgnoresTail(s: string, t: string)
    requires '/' !in t
    ensures BeforeLastSlash(s + t) == BeforeLastSlash(s)
    decreases |t|
  {
    if t == "" {
      assert s + t == s;
    } else {
      assert (s + t)[..|s + t| - 1] == s + t[..|t| - 1];
      BeforeLastSlashIgnoresTail(s, t[..|t| - 1]);
    }
  }

  lemma {:induction false} RootHasNoDirectory(path: string)
    ensures FromUrlPath(path).isRoot ==> BeforeLastSlash(TrimStart(FromUrlPath(path).raw)) == None
  {
    if FromUrlPath(path).isRoot {
      assert FromUrlPath(path).raw == "/" && "/"[1..] == "";
      assert TrimStart("/") == TrimStart("");
    }
  }

  /** Query and fragment never change the folder. */
  lemma QueriesShareFolder(path: string, query: string, fragment: string, hashOf: string -> nat, wide: char -> bool)
    ensures ToDirectory(WithQuery(path, query, fragment, hashOf), wide) == ToDirectory(FromUrlPath(path), wide)
  {
    if query != "" || fragment != "" {
      BoundedSuffixIsSafe(query, fragment, hashOf);
      RootHasNoDirectory(path);
      hide FromUrlPath, BoundedSuffix, TrimStart, BeforeLastSlash;
      var raw, t := FromUrlPath(path).raw, BoundedSuffix(query, fragment, hashOf);
      TrimStartKeepsTail(raw, t);
      BeforeLastSlashIgnoresTail(TrimStart(raw), t);
    }
  }

  lemma SamePathIffSameStem(domain: string, path: string, q1: string, f1: string, q2: string, f2: string,
                            hashOf: string -> nat, f: Option<OutputFormat>, decode: string -> string,
                            reserved: string -> bool, wide: char -> bool)
    ensures var p1, p2 := WithQuery(path, q1, f1, hashOf), WithQuery(path, q2, f2, hashOf);
            ToFullPath(domain, p1, f, decode, reserved, wide) == ToFullPath(domain, p2, f, decode, reserved, wide)
            <==> Stem(p1, decode, reserved, wide) == Stem(p2, decode, reserved, wide)
  {
    var p1, p2 := WithQuery(path, q1, f1, hashOf), WithQuery(path, q2, f2, hashOf);
    QueriesShareFolder(path, q1, f1, hashOf, wide);
    QueriesShareFolder(path, q2, f2, hashOf, wide);
    hide WithQuery, ToDirectory, Stem, Extension;
    var s1, s2 := Stem(p1, decode, reserved, wide), Stem(p2, decode, reserved, wide);
    var n1, n2 := s1 + "." + Extension(f), s2 + "." + Extension(f);
    assert n1 == s1 + ("." + Extension(f)) && n2 == s2 + ("." + Extension(f));
    SuffixCancels(s1, s2, "." + Extension(f));
    PrefixCancels(ToFolderPath(domain, p1, wide), n1, n2);
  }

  lemma PrefixCancels(a: string, x: string, y: string)
    ensures a + x == a + y <==> x == y
  {
    assert (a + x)[|a|..] == x && (a + y)[|a|..] == y;
  }

  lemma SuffixCancels(x: string, y: string, z: string)
    ensures x + z == y + z <==> x == y
  {
    if x + z == y + z {
      assert |x| == |y| && (x + z)[..|x|] == x && (y + z)[..|y|] == y;
    }
  }

  /** Two slugs name one file: they are equal, or one is a device name and the other is what the
      device name is renamed to. */
  predicate SameName(a: string, b: string, reserved: string -> bool) {
    || a == b
    || (reserved(a) && !reserved(b) && b == a + "_safe")
    || (reserved(b) && !reserved(a) && a == b + "_safe")
  }

  lemma SameNameIff(a: string, b: string, reserved: string -> bool)
    ensures AvoidDevice(a, reserved) == AvoidDevice(b, reserved) <==> SameName(a, b, reserved)
  {
    SuffixCancels(a, b, "_safe");
  }

  /** Distinct files are promised for URLs that differ in query or fragment. For one path and any two
      of them, short or truncated, the full paths are equal if and only if the sanitised slugs name
      one file. */
  lemma QueriesCollideIff(domain: string, path: string, q1: string, f1: string, q2: string, f2: string,
                          hashOf: string -> nat, f: Option<OutputFormat>, decode: string -> string,
                          reserved: string -> bool, wide: char -> bool)
    requires (q1 != "" || f1 != "") && (q2 != "" || f2 != "")
    ensures var p1, p2 := WithQuery(path, q1, f1, hashOf), WithQuery(path, q2, f2, hashOf);
            ToFullPath(domain, p1, f, decode, reserved, wide) == ToFullPath(domain, p2, f, decode, reserved, wide)
            <==> SameName(Slug(p1.raw, decode, wide), Slug(p2.raw, decode, wide), reserved)
  {
    var p1, p2 := WithQuery(path, q1, f1, hashOf), WithQuery(path, q2, f2, hashOf);
    hide FromUrlPath, BoundedSuffix, Slug, ToFullPath;
    SamePathIffSameStem(domain, path, q1, f1, q2, f2, hashOf, f, decode, reserved, wide);
    SameNameIff(Slug(p1.raw, decode, wide), Slug(p2.raw, decode, wide), reserved);
  }

  /** The bare path against one with a query or a fragment. */
  lemma BareCollidesIff(domain: string, path: string, query: string, fragment: string,
                        hashOf: string -> nat, f: Option<OutputFormat>, decode: string -> string,
                        reserved: string -> bool, wide: char -> bool)
    requires query != "" || fragment != ""
    ensures var bare, p := FromUrlPath(path), WithQuery(path, query, fragment, hashOf);
            var own, other := Slug(bare.raw, decode, wide), Slug(p.raw, decode, wide);
            ToFullPath(domain, bare, f, decode, reserved, wide) == ToFullPath(domain, p, f, decode, reserved, wide)
            <==> if bare.isRoot then AvoidDevice(other, reserved) == "index"
                 else if bare.endsWithSlash && AvoidDevice(own, reserved) != ""
                 then AvoidDevice(other, reserved) == AvoidDevice(own, reserved) + "_"
                 else SameName(own, other, reserved)
  {
    var bare, p := FromUrlPath(path), WithQuery(path, query, fragment, hashOf);
    assert WithQuery(path, "", "", hashOf) == bare;
    hide FromUrlPath, BoundedSuffix, Slug, ToFullPath;
    SamePathIffSameStem(domain, path, "", "", query, fragment, hashOf, f, decode, reserved, wide);
    SameNameIff(Slug(bare.raw, decode, wide), Slug(p.raw, decode, wide), reserved);
  }

  // ----- the slug of a plain URL --------------------------------------------------------------------

  /** Percent-decoding leaves a string without a percent sign alone. */
  ghost predicate PlainDecoding(decode: string -> string) {
    forall s :: '%' !in s ==> decode(s) == s
  }

  lemma {:induction false} TrimEndIsPrefix(s: string)
    ensures TrimEnd(s) <= s
    decreases |s|
  {
    if s != "" && s[|s| - 1] == '/' {
      TrimEndIsPrefix(s[..|s| - 1]);
    }
  }

  lemma {:induction false} BeforeIsPrefix(s: string, c: char)
    ensures Before(s, c) <= s
    decreases |s|
  {
    if s != "" && s[0] != c {
      BeforeIsPrefix(s[1..], c);
      assert s == [s[0]] + s[1..];
    }
  }

  lemma RawIsPlain(path: string)
    requires '%' !in path
    ensures '%' !in FromUrlPath(path).raw
  {
    BeforeIsPrefix(path, '?');
    BeforeIsPrefix(Before(path, '?'), '#');
    var clean := Before(Before(path, '?'), '#');
    assert clean <= path && '%' !in clean;
    hide Before;
    var normalized := if clean == "" || clean[0] != '/' then "/" + clean else clean;
    TrimEndIsPrefix(normalized);
  }

  lemma SuffixIsPlain(query: string, fragment: string, hashOf: string -> nat)
    requires '%' !in query && '%' !in fragment
    ensures '%' !in BoundedSuffix(query, fragment, hashOf)
  {
    hide Utf8Len, Render;
  }

  /** The front of a slug that a suffix is appended to. */
  function Front(raw: string, wide: char -> bool): string {
    SanitizePathSegment(Replace(Replace(TrimStart(raw), '/', '-'), ' ', '_'), wide)
  }

  lemma PlainSlug(raw: string, t: string, decode: string -> string, wide: char -> bool)
    requires PlainDecoding(decode) && '%' !in raw && '%' !in t && '/' !in t && t != ""
    ensures Slug(raw + t, decode, wide) == Front(raw, wide) + SanitizePathSegment(t, wide)
  {
    assert '%' !in raw + t;
    assert decode(raw + t) == raw + t;
    TrimStartKeepsTail(raw, t);
    hide TrimStart;
    var x := TrimStart(raw) + t;
    assert x[|x| - 1] == t[|t| - 1] && TrimEnd(x) == x;
    hide TrimEnd;
    assert Replace(x, '/', '-') == Replace(TrimStart(raw), '/', '-') + t;
  }

  /** Without percent signs two queries have one slug if and only if their bounded suffixes are
      equal up to characters outside the whitelist. */
  lemma PlainQueriesCollideIff(path: string, q1: string, f1: string, q2: string, f2: string,
                               hashOf: string -> nat, decode: string -> string, wide: char -> bool)
    requires PlainDecoding(decode) && '%' !in path && '%' !in q1 && '%' !in f1 && '%' !in q2 && '%' !in f2
    requires (q1 != "" || f1 != "") && (q2 != "" || f2 != "")
    ensures var p1, p2 := WithQuery(path, q1, f1, hashOf), WithQuery(path, q2, f2, hashOf);
            var t1, t2 := BoundedSuffix(q1, f1, hashOf), BoundedSuffix(q2, f2, hashOf);
            Slug(p1.raw, decode, wide) == Slug(p2.raw, decode, wide)
            <==> SanitizePathSegment(t1, wide) == SanitizePathSegment(t2, wide)
  {
    RawIsPlain(path);
    SuffixIsPlain(q1, f1, hashOf);
    SuffixIsPlain(q2, f2, hashOf);
    BoundedSuffixIsSafe(q1, f1, hashOf);
    BoundedSuffixIsSafe(q2, f2, hashOf);
    hide FromUrlPath, BoundedSuffix, Slug, PlainDecoding, SanitizePathSegment, Front;
    var raw, t1, t2 := FromUrlPath(path).raw, BoundedSuffix(q1, f1, hashOf), BoundedSuffix(q2, f2, hashOf);
    PlainSlug(raw, t1, decode, wide);
    PlainSlug(raw, t2, decode, wide);
    PrefixCancels(Front(raw, wide), SanitizePathSegment(t1, wide), SanitizePathSegment(t2, wide));
  }

  /** When two suffixes are bounded to the same string: equal ones if both are short; the same kept
      prefix and the same low 32 bits of the hash if both are long; otherwise the short one is
      spelled like the long one's truncation. */
  lemma BoundedAgreeIff(s1: string, s2: string, maxBytes: nat, hash1: nat, hash2: nat) returns (cut1: nat, cut2: nat)
    ensures Utf8Len(s1) > maxBytes ==> LongestWithin(s1, cut1, PrefixBudget(maxBytes))
    ensures Utf8Len(s2) > maxBytes ==> LongestWithin(s2, cut2, PrefixBudget(maxBytes))
    ensures cut1 <= |s1| && cut2 <= |s2|
    ensures TruncateWithHash(s1, maxBytes, hash1) == TruncateWithHash(s2, maxBytes, hash2) <==>
            if Utf8Len(s1) <= maxBytes && Utf8Len(s2) <= maxBytes then s1 == s2
            else if Utf8Len(s1) <= maxBytes then s1 == s2[..cut2] + ("_" + Render(hash2, 8))
            else if Utf8Len(s2) <= maxBytes then s2 == s1[..cut1] + ("_" + Render(hash1, 8))
            else s1[..cut1] == s2[..cut2] && hash1 % 0x1_0000_0000 == hash2 % 0x1_0000_0000
  {
    cut1 := TruncationBound(s1, maxBytes, hash1);
    cut2 := TruncationBound(s2, maxBytes, hash2);
    cut1 := if Utf8Len(s1) > maxBytes then cut1 else 0;
    cut2 := if Utf8Len(s2) > maxBytes then cut2 else 0;
    hide Utf8Len, TruncateWithHash, LongestWithin, Render;
    LongFormsAgreeIff(s1[..cut1], s2[..cut2], hash1, hash2);
  }

  lemma LongFormsAgreeIff(a: string, b: string, hash1: nat, hash2: nat)
    ensures a + ("_" + Render(hash1, 8)) == b + ("_" + Render(hash2, 8)) <==>
            a == b && hash1 % 0x1_0000_0000 == hash2 % 0x1_0000_0000
  {
    RenderAgreesIff(hash1, hash2, 8);
    assert Pow16(8) == 0x1_0000_0000;
    var h1, h2 := "_" + Render(hash1, 8), "_" + Render(hash2, 8);
    hide Render, Pow16;
    PrefixCancels("_", Render(hash1, 8), Render(hash2, 8));
    if a + h1 == b + h2 {
      assert |a| == |b| && (a + h1)[..|a|] == a && (b + h2)[..|b|] == b;
      PrefixCancels(a, h1, h2);
    }
  }

  lemma WhitelistConcat(a: string, b: string, wide: char -> bool)
    ensures SanitizePathSegment(a + b, wide) == SanitizePathSegment(a, wide) + SanitizePathSegment(b, wide)
  {
  }

  lemma HashIsWhitelisted(hash: nat, wide: char -> bool)
    ensures SanitizePathSegment("_" + Render(hash, 8), wide) == "_" + Render(hash, 8)
  {
    var h := "_" + Render(hash, 8);
    assert forall i :: 0 <= i < |h| ==> Whitelisted(h[i], wide);
    hide Render;
  }

  /** The whitelisted form of a bounded suffix, as it appears in a filename: a short suffix whitelisted,
      or the whitelisted kept prefix followed by the hash. */
  lemma WhitelistedForm(s: string, maxBytes: nat, hash: nat, wide: char -> bool) returns (cut: nat)
    ensures cut <= |s| && (Utf8Len(s) > maxBytes ==> LongestWithin(s, cut, PrefixBudget(maxBytes)))
    ensures SanitizePathSegment(TruncateWithHash(s, maxBytes, hash), wide) ==
            if Utf8Len(s) <= maxBytes then SanitizePathSegment(s, wide)
            else SanitizePathSegment(s[..cut], wide) + ("_" + Render(hash, 8))
  {
    cut := TruncationBound(s, maxBytes, hash);
    cut := if Utf8Len(s) > maxBytes then cut else 0;
    hide Utf8Len, TruncateWithHash, Render, SanitizePathSegment;
    WhitelistConcat(s[..cut], "_" + Render(hash, 8), wide);
    HashIsWhitelisted(hash, wide);
  }

  /** When two bounded suffixes are equal after whitelisting, in all four short and long cases: over
      the limit, the whitelisted kept prefixes and the low 32 bits of the hashes are equal. */
  lemma WhitelistedAgreeIff(s1: string, s2: string, maxBytes: nat, hash1: nat, hash2: nat, wide: char -> bool)
    returns (cut1: nat, cut2: nat)
    ensures Utf8Len(s1) > maxBytes ==> LongestWithin(s1, cut1, PrefixBudget(maxBytes))
    ensures Utf8Len(s2) > maxBytes ==> LongestWithin(s2, cut2, PrefixBudget(maxBytes))
    ensures cut1 <= |s1| && cut2 <= |s2|
    ensures var w1, w2 := SanitizePathSegment(s1, wide), SanitizePathSegment(s2, wide);
            var k1, k2 := SanitizePathSegment(s1[..cut1], wide), SanitizePathSegment(s2[..cut2], wide);
            SanitizePathSegment(TruncateWithHash(s1, maxBytes, hash1), wide)
            == SanitizePathSegment(TruncateWithHash(s2, maxBytes, hash2), wide) <==>
            if Utf8Len(s1) <= maxBytes && Utf8Len(s2) <= maxBytes then w1 == w2
            else if Utf8Len(s1) <= maxBytes then w1 == k2 + ("_" + Render(hash2, 8))
            else if Utf8Len(s2) <= maxBytes then w2 == k1 + ("_" + Render(hash1, 8))
            else k1 == k2 && hash1 % 0x1_0000_0000 == hash2 % 0x1_0000_0000
  {
    cut1 := WhitelistedForm(s1, maxBytes, hash1, wide);
    cut2 := WhitelistedForm(s2, maxBytes, hash2, wide);
    hide Utf8Len, TruncateWithHash, LongestWithin, Render, SanitizePathSegment;
    LongFormsAgreeIff(SanitizePathSegment(s1[..cut1], wide), SanitizePathSegment(s2[..cut2], wide), hash1, hash2);
  }

  /** For every path without a percent sign, `?a+b` and `?a,b` end in one file, although even their
      suffixes differ. */
  lemma DistinctQueriesCollide(domain: string, path: string, hashOf: string -> nat, f: Option<OutputFormat>,
                               decode: string -> string, reserved: string -> bool, wide: char -> bool)
    requires PlainDecoding(decode) && '%' !in path
    ensures QuerySuffix("a+b", "") != QuerySuffix("a,b", "")
    ensures ToFullPath(domain, WithQuery(path, "a+b", "", hashOf), f, decode, reserved, wide)
         == ToFullPath(domain, WithQuery(path, "a,b", "", hashOf), f, decode, reserved, wide)
  {
    ShortSuffixes(hashOf);
    hide BoundedSuffix;
    assert SanitizePathSegment("_a+b", wide) == "_a_b" && SanitizePathSegment("_a,b", wide) == "_a_b";
    hide SanitizePathSegment, ToFullPath, WithQuery, Slug;
    PlainQueriesCollideIff(path, "a+b", "", "a,b", "", hashOf, decode, wide);
    QueriesCollideIff(domain, path, "a+b", "", "a,b", "", hashOf, f, decode, reserved, wide);
  }

  lemma ShortSuffixes(hashOf: string -> nat)
    ensures QuerySuffix("a+b", "") == "_a+b" && BoundedSuffix("a+b", "", hashOf) == "_a+b"
    ensures QuerySuffix("a,b", "") == "_a,b" && BoundedSuffix("a,b", "", hashOf) == "_a,b"
  {
    assert SanitizeQueryPart("a+b") == "a+b" && SanitizeQueryPart("a,b") == "a,b";
    FourBytes("_a+b");
    FourBytes("_a,b");
  }

  lemma FourBytes(s: string)
    requires |s| == 4
    ensures Utf8Len(s) <= 16
  {
    assert Utf8Len(s[..0]) == 0;
    assert s[..4] == s;
    assert forall k :: 0 < k <= 4 ==> s[..k][..k - 1] == s[..k - 1];
    assert Utf8Len(s[..1]) <= 4 && Utf8Len(s[..2]) <= 8 && Utf8Len(s[..3]) <= 12;
  }
}
