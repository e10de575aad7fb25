/** The image picker's handling of local files: which dropped files are
    accepted, and how each accepted file's object key is built from its
    name and a random prefix. */
module ImageKeys {
  import opened Seqs

  /** A file from the browser's file list, with what the outside world
      answers for it: `draws` are the successive values of
      `Math.floor(Math.random() * 62)` used for its random prefix, `signed`
      says whether the server granted it a pre-signed upload URL, and
      `uploaded` whether the PUT to that URL resolved. */
  datatype LocalFile = LocalFile(name: string, mimeType: string, draws: seq<nat>, signed: bool, uploaded: bool)

  /** The four MIME types `handleDrop` lets through. */
  predicate Supported(f: LocalFile)
  {
    f.mimeType == "image/png" || f.mimeType == "image/jpeg" ||
    f.mimeType == "image/jpg" || f.mimeType == "image/webp"
  }

  predicate Unsupported(f: LocalFile)
  {
    !Supported(f)
  }

  /** The dropped files that are kept, in drop order. */
  function Accepted(files: seq<LocalFile>): (r: seq<LocalFile>)
    ensures forall f :: f in r <==> f in files && Supported(f)
  {
    Keep(files, Supported)
  }

  function Names(files: seq<LocalFile>): seq<string>
  {
    seq(|files|, i requires 0 <= i < |files| => files[i].name)
  }

  lemma NamesAppend(a: seq<LocalFile>, b: seq<LocalFile>)
    ensures Names(a + b) == Names(a) + Names(b)
  {
    assert forall i | 0 <= i < |a + b| :: Names(a + b)[i] == (Names(a) + Names(b))[i];
  }

  /** A name is listed exactly when some file carries it. */
  lemma NamesMembers(files: seq<LocalFile>)
    ensures forall n :: n in Names(files) <==> exists f | f in files :: f.name == n
  {
    forall n | n in Names(files) ensures exists f | f in files :: f.name == n {
      var i :| 0 <= i < |files| && Names(files)[i] == n;
      assert files[i] in files;
    }
    forall n | exists f | f in files :: f.name == n ensures n in Names(files) {
      var f :| f in files && f.name == n;
      var i :| 0 <= i < |files| && files[i] == f;
      assert Names(files)[i] == n;
    }
  }

  /** The names reported in an error toast, in drop order: exactly the
      names of the unsupported files. */
  function RejectedNames(files: seq<LocalFile>): (r: seq<string>)
    ensures forall n :: n in r <==> exists f | f in files :: !Supported(f) && f.name == n
  {
    NamesMembers(Keep(files, Unsupported));
    Names(Keep(files, Unsupported))
  }

  /** Filtering commutes with concatenation: kept files stay in their order. */
  lemma AcceptedAppend(a: seq<LocalFile>, b: seq<LocalFile>)
    ensures Accepted(a + b) == Accepted(a) + Accepted(b)
    ensures RejectedNames(a + b) == RejectedNames(a) + RejectedNames(b)
  {
    KeepAppend(a, b, Supported);
    KeepAppend(a, b, Unsupported);
    NamesAppend(Keep(a, Unsupported), Keep(b, Unsupported));
  }

  /** Every dropped file is kept or has its name reported, and the two
      lists together are as long as the drop. */
  lemma AcceptedOrRejected(files: seq<LocalFile>)
    ensures |Accepted(files)| + |RejectedNames(files)| == |files|
    ensures forall f | f in files :: f in Accepted(files) || f.name in RejectedNames(files)
  {
    KeepSplits(files, Supported, Unsupported);
  }

  /** One more dropped file is pushed or reported, after the earlier ones. */
  lemma FilterStep(dropped: seq<LocalFile>, i: nat)
    requires i < |dropped|
    ensures Accepted(dropped[..i + 1]) ==
              Accepted(dropped[..i]) + if Supported(dropped[i]) then [dropped[i]] else []
    ensures RejectedNames(dropped[..i + 1]) ==
              RejectedNames(dropped[..i]) + if Supported(dropped[i]) then [] else [dropped[i].name]
  {
    var file := dropped[i];
    assert dropped[..i + 1] == dropped[..i] + [file];
    AcceptedAppend(dropped[..i], [file]);
    assert [file][1..] == [];
  }

  /** The loop of `handleDrop`: supported files are pushed, the others
      are reported. */
  method FilterDropped(dropped: seq<LocalFile>) returns (accepted: seq<LocalFile>, rejected: seq<string>)
    ensures accepted == Accepted(dropped) && rejected == RejectedNames(dropped)
    ensures forall f :: f in accepted <==> f in dropped && Supported(f)
  {
    accepted, rejected := [], [];
    for i := 0 to |dropped|
      invariant accepted == Accepted(dropped[..i])
      invariant rejected == RejectedNames(dropped[..i])
    {
      var file := dropped[i];
      FilterStep(dropped, i);
      if !Supported(file) {
        rejected := rejected + [file.name];
      } else {
        accepted := accepted + [file];
      }
    }
    assert dropped[..|dropped|] == dropped;
  }

  /** `s.lastIndexOf(c)`: the last position holding `c`, or -1. */
  function LastIndexOf(s: string, c: char): (r: int)
    ensures -1 <= r < |s|
    ensures r >= 0 ==> s[r] == c
    ensures forall i | r < i < |s| :: s[i] != c
  {
    if s == [] then -1
    else if s[|s| - 1] == c then |s| - 1
    else LastIndexOf(s[..|s| - 1], c)
  }

  function Clamp(x: int, n: nat): (r: nat)
    ensures r <= n
    ensures 0 <= x <= n ==> r == x
  {
    if x < 0 then 0 else if x > n then n else x
  }

  /** `s.substring(start, end)`: both ends clamped to the string, and
      swapped when the start is past the end. */
  function Substring(s: string, start: int, end: int): (r: string)
    ensures |r| <= |s|
    ensures 0 <= start <= end <= |s| ==> r == s[start..end]
    ensures 0 <= end <= start <= |s| ==> r == s[end..start]
    ensures start <= 0 && |s| <= end ==> r == s
    ensures end <= 0 && start <= 0 ==> r == []
  {
    var a, b := Clamp(start, |s|), Clamp(end, |s|);
    if a <= b then s[a..b] else s[b..a]
  }

  /** `name.substring(0, name.lastIndexOf(".")) || name`: the part before
      the last dot, or the whole name when that part is empty (no dot, or
      the only dot leads the name). */
  function BaseName(name: string): (r: string)
    ensures (forall k | 0 < k < |name| :: name[k] != '.') ==> r == name
    ensures (exists k | 0 < k < |name| :: name[k] == '.') ==>
              0 < |r| < |name| && r == name[..|r|] && name[|r|] == '.' &&
              forall k | |r| < k < |name| :: name[k] != '.'
  {
    var stem := Substring(name, 0, LastIndexOf(name, '.'));
    if stem != "" then stem else name
  }

  /** Stripping an extension gives back the stem it was appended to. */
  lemma StemOfNameWithExtension(stem: string, ext: string)
    requires stem != "" && '.' !in ext
    ensures BaseName(stem + "." + ext) == stem
  {
    var name := stem + "." + ext;
    assert name[|stem|] == '.';
    var r := BaseName(name);
    assert 0 < |r| < |name| && name[|r|] == '.';
    assert |r| == |stem|;
    assert r == name[..|stem|] == stem;
  }

  /** `\s` of JavaScript regular expressions. */
  predicate IsWhitespace(c: char)
  {
    c == ' ' || c == '\t' || c == '\n' || c == '\U{B}' || c == '\U{C}' || c == '\r' ||
    c == '\U{A0}' || c == '\U{1680}' || ('\U{2000}' <= c <= '\U{200A}') ||
    c == '\U{2028}' || c == '\U{2029}' || c == '\U{202F}' || c == '\U{205F}' ||
    c == '\U{3000}' || c == '\U{FEFF}'
  }

  predicate NoWhitespace(s: string)
  {
    forall i | 0 <= i < |s| :: !IsWhitespace(s[i])
  }

  /** `s.replace(/\s/g, "")`: a single character is dropped exactly when
      it is whitespace, and `StripAppend` extends this to any string. */
  function StripWhitespace(s: string): (r: string)
    ensures NoWhitespace(r)
    ensures |r| <= |s|
    ensures |s| == 1 ==> r == if IsWhitespace(s[0]) then [] else s
  {
    if s == [] then []
    else (if IsWhitespace(s[0]) then "" else [s[0]]) + StripWhitespace(s[1..])
  }

  /** Stripping works part by part, so the characters kept stay in their
      order, each with its count. */
  lemma {:induction false} StripAppend(a: string, b: string)
    ensures StripWhitespace(a + b) == StripWhitespace(a) + StripWhitespace(b)
  {
    if a == [] {
      assert a + b == b;
    } else {
      assert (a + b)[1..] == a[1..] + b;
      StripAppend(a[1..], b);
    }
  }

  /** Stripping changes exactly the strings that hold whitespace. */
  lemma {:induction false} StripIsIdentityIff(s: string)
    ensures StripWhitespace(s) == s <==> NoWhitespace(s)
  {
    if s != [] {
      StripIsIdentityIff(s[1..]);
      if IsWhitespace(s[0]) {
        assert |StripWhitespace(s)| <= |s[1..]| < |s|;
      } else if NoWhitespace(s) {
        assert NoWhitespace(s[1..]) by {
          forall i | 0 <= i < |s[1..]| ensures !IsWhitespace(s[1..][i]) {
            assert s[1..][i] == s[i + 1];
          }
        }
        assert s == [s[0]] + s[1..];
      }
    }
  }

  /** Stripping twice is stripping once. */
  lemma StripIdempotent(s: string)
    ensures StripWhitespace(StripWhitespace(s)) == StripWhitespace(s)
  {
    StripIsIdentityIff(StripWhitespace(s));
  }

  /** Stripping keeps every non-whitespace character, and only those. */
  lemma {:induction false} StripKeeps(s: string, c: char)
    ensures c in StripWhitespace(s) <==> c in s && !IsWhitespace(c)
  {
    if s != [] {
      StripKeeps(s[1..], c);
      assert s == [s[0]] + s[1..];
    }
  }

  predicate IsAlphanumeric(c: char)
  {
    'A' <= c <= 'Z' || 'a' <= c <= 'z' || '0' <= c <= '9'
  }

  const Upper: string := "ABCDEFGHIJKLMNOPQRSTUVWXYZ"
  const Lower: string := "abcdefghijklmnopqrstuvwxyz"
  const Digits: string := "0123456789"

  /** The 62 characters `generateRandomString` draws from, in its order. */
  const Alphabet: string := Upper + Lower + Digits

  lemma UpperAreLetters()
    ensures |Upper| == 26 && forall i | 0 <= i < 26 :: 'A' <= Upper[i] <= 'Z'
  {
  }

  lemma LowerAreLetters()
    ensures |Lower| == 26 && forall i | 0 <= i < 26 :: 'a' <= Lower[i] <= 'z'
  {
  }

  lemma DigitsAreDigits()
    ensures |Digits| == 10 && forall i | 0 <= i < 10 :: '0' <= Digits[i] <= '9'
  {
  }

  lemma AlphabetIsAlphanumeric(k: nat)
    requires k < |Alphabet|
    ensures |Alphabet| == 62 && IsAlphanumeric(Alphabet[k])
  {
    if k < 26 {
      UpperAreLetters();
      assert Alphabet[k] == Upper[k];
    } else if k < 52 {
      LowerAreLetters();
      assert Alphabet[k] == Lower[k - 26];
    } else {
      DigitsAreDigits();
      assert Alphabet[k] == Digits[k - 52];
    }
  }

  /** What `Math.floor(Math.random() * characters.length)` can yield. */
  predicate ValidDraws(draws: seq<nat>)
  {
    forall i | 0 <= i < |draws| :: draws[i] < |Alphabet|
  }

  /** The string the first `n` draws spell. */
  function Drawn(draws: seq<nat>, n: nat): string
    requires ValidDraws(draws) && n <= |draws|
  {
    seq(n, i requires 0 <= i < n => Alphabet[draws[i]])
  }

  /** Every drawn character is a letter or a digit, so never whitespace. */
  lemma DrawnIsAlphanumeric(draws: seq<nat>, n: nat)
    requires ValidDraws(draws) && n <= |draws|
    ensures |Drawn(draws, n)| == n
    ensures forall i | 0 <= i < n :: IsAlphanumeric(Drawn(draws, n)[i])
    ensures NoWhitespace(Drawn(draws, n))
  {
    forall i | 0 <= i < n ensures IsAlphanumeric(Drawn(draws, n)[i]) {
      AlphabetIsAlphanumeric(draws[i]);
    }
  }

  /** `generateRandomString(length)`, with the random draws supplied. */
  method GenerateRandomString(length: int, draws: seq<nat>) returns (r: string)
    requires ValidDraws(draws) && length <= |draws|
    ensures |r| == if length < 0 then 0 else length
    ensures forall i | 0 <= i < |r| :: r[i] == Alphabet[draws[i]]
    ensures forall i | 0 <= i < |r| :: IsAlphanumeric(r[i])
  {
    r := "";
    var i := 0;
    while i < length
      invariant 0 <= i <= (if length < 0 then 0 else length) <= |draws|
      invariant |r| == i
      invariant forall k | 0 <= k < i :: r[k] == Alphabet[draws[k]]
    {
      r := r + [Alphabet[draws[i]]];
      i := i + 1;
    }
    forall k | 0 <= k < |r| ensures IsAlphanumeric(r[k]) {
      AlphabetIsAlphanumeric(draws[k]);
    }
  }

  /** `${randomString}-${fileNameWithoutExtension.replace(/\s/g, "")}`. */
  function UniqueKey(random: string, fileName: string): (r: string)
    ensures |r| > |random| && r[..|random|] == random && r[|random|] == '-'
    ensures r[|random| + 1..] == StripWhitespace(BaseName(fileName))
    ensures NoWhitespace(random) ==> NoWhitespace(r)
  {
    random + "-" + StripWhitespace(BaseName(fileName))
  }

  /** The key a file is uploaded under: ten drawn characters, a dash and
      its stripped base name. */
  function KeyFor(f: LocalFile): (r: string)
    requires ValidDraws(f.draws) && 10 <= |f.draws|
    ensures |r| > 10 && NoWhitespace(r) && r[10] == '-'
    ensures forall i | 0 <= i < 10 :: IsAlphanumeric(r[i])
  {
    DrawnIsAlphanumeric(f.draws, 10);
    UniqueKey(Drawn(f.draws, 10), f.name)
  }

  /** `file.Key?.slice(11)`, the name the gallery prints under an image. */
  function DisplayedName(key: string): string
  {
    if |key| >= 11 then key[11..] else ""
  }

  /** The gallery label of an uploaded file is its stripped base name. */
  lemma DisplayedNameOfKey(f: LocalFile)
    requires ValidDraws(f.draws) && 10 <= |f.draws|
    ensures DisplayedName(KeyFor(f)) == StripWhitespace(BaseName(f.name))
  {
  }
}
