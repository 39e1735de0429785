/** The string operations the program takes from Go's `strings` package. A `char` stands for
    one byte, so `Compare` is Go's bytewise order. */
module Text {
  /** Stored content, a byte a character. */
  type Bytes = string


  /** `strings.Compare`: negative, zero or positive. */
  function Compare(a: string, b: string): int {
    if a == b then 0
    else if a == "" then -1
    else if b == "" then 1
    else if a[0] < b[0] then -1
    else if a[0] > b[0] then 1
    else Compare(a[1..], b[1..])
  }

  predicate HasSuffix(s: string, suffix: string) {
    |suffix| <= |s| && s[|s| - |suffix|..] == suffix
  }

  function TrimSuffix(s: string, suffix: string): string {
    if HasSuffix(s, suffix) then s[..|s| - |suffix|] else s
  }

  /** `strings.Split(s, "/")`: never empty, `[""]` for the empty string. */
  function Split(s: string): (parts: seq<string>)
    ensures |parts| >= 1
  {
    if s == "" then [""]
    else if s[0] == '/' then [""] + Split(s[1..])
    else
      var rest := Split(s[1..]);
      [[s[0]] + rest[0]] + rest[1..]
  }

  function Join(parts: seq<string>): string
    requires |parts| >= 1
  {
    if |parts| == 1 then parts[0] else parts[0] + "/" + Join(parts[1..])
  }

  /** `strings.IndexByte`: the position of the first `c`, or -1. */
  function IndexOf(s: string, c: char): (i: int)
    ensures -1 <= i < |s|
    ensures i >= 0 ==> s[i] == c
    ensures forall j :: 0 <= j < i ==> s[j] != c
    ensures i < 0 ==> c !in s
  {
    if s == "" then -1
    else if s[0] == c then 0
    else
      var i := IndexOf(s[1..], c);
      if i < 0 then -1 else i + 1
  }

  /** `strings.LastIndexByte`: the position of the last `c`, or -1. */
  function LastIndex(s: string, c: char): (i: int)
    ensures -1 <= i < |s|
    ensures i >= 0 ==> s[i] == c
    ensures forall j :: i < j < |s| ==> s[j] != c
  {
    if s == "" then -1
    else if s[|s| - 1] == c then |s| - 1
    else LastIndex(s[..|s| - 1], c)
  }

  /** Everything up to and including the last `/`, or "" when there is none. */
  function DirOf(path: string): string {
    path[..LastIndex(path, '/') + 1]
  }

  function LastSegment(path: string): string {
    path[LastIndex(path, '/') + 1..]
  }

  /** A path is its directory and its last segment. */
  lemma PathParts(path: string)
    ensures path == DirOf(path) + LastSegment(path) && '/' !in LastSegment(path)
    ensures DirOf(path) != "" ==> DirOf(path)[|DirOf(path)| - 1] == '/'
  {
  }

  /** The text after a prefix. */
  lemma PrefixRest(front: string, s: string)
    requires front <= s
    ensures s == front + s[|front|..]
  {
  }

  /** The first occurrence is where text without it ends. */
  lemma IndexOfFirst(a: string, c: char, b: string)
    requires c !in a
    ensures var s := a + [c] + b; IndexOf(s, c) == |a| && s[..|a|] == a && s[|a| + 1..] == b
  {
    var s := a + [c] + b;
    assert s[|a|] == c;
    assert forall j :: 0 <= j < |a| ==> s[j] == a[j];
  }

  // ---- blank text ----

  predicate Space(c: char) {
    c in {' ', '\t', '\n', '\r'}
  }

  function TrimSpace(s: string): (t: string)
    ensures t != "" ==> !Space(t[0]) && !Space(t[|t| - 1])
    ensures t == "" <==> forall i :: 0 <= i < |s| ==> Space(s[i])
  {
    if s == "" then ""
    else if Space(s[0]) then TrimSpace(s[1..])
    else if Space(s[|s| - 1]) then TrimSpace(s[..|s| - 1])
    else s
  }

  predicate Blank(s: string) {
    TrimSpace(s) == ""
  }

  // ---- slugs ----

  predicate SlugChar(c: char) {
    'a' <= c <= 'z' || '0' <= c <= '9' || c == '-'
  }

  /** The shape of a workspace name. */
  predicate Slug(s: string) {
    s != "" && forall i :: 0 <= i < |s| ==> SlugChar(s[i])
  }

  lemma SmallLetters(c: char)
    ensures 'a' <= c <= 'z' <==> c in "abcdefghijklmnopqrstuvwxyz"
  {
    var letters := "abcdefghijklmnopqrstuvwxyz";
    assert forall j :: 0 <= j < 26 ==> letters[j] as int == 'a' as int + j;
    if 'a' <= c <= 'z' {
      assert letters[c as int - 'a' as int] == c;
    }
  }

  lemma CapitalLetters(c: char)
    ensures 'A' <= c <= 'Z' <==> c in "ABCDEFGHIJKLMNOPQRSTUVWXYZ"
  {
    var letters := "ABCDEFGHIJKLMNOPQRSTUVWXYZ";
    assert forall j :: 0 <= j < 26 ==> letters[j] as int == 'A' as int + j;
    if 'A' <= c <= 'Z' {
      assert letters[c as int - 'A' as int] == c;
    }
  }

  lemma Digits(c: char)
    ensures '0' <= c <= '9' <==> c in "0123456789"
  {
    var digits := "0123456789";
    assert forall j :: 0 <= j < 10 ==> digits[j] as int == '0' as int + j;
    if '0' <= c <= '9' {
      assert digits[c as int - '0' as int] == c;
    }
  }

  /** On the texts: small letters, digits and dashes, at least one. */
  lemma SlugTexts(s: string)
    ensures Slug(s) <==> s != "" && forall i :: 0 <= i < |s| ==> s[i] in "abcdefghijklmnopqrstuvwxyz0123456789-"
  {
    assert "abcdefghijklmnopqrstuvwxyz" + "0123456789" + "-" == "abcdefghijklmnopqrstuvwxyz0123456789-";
    forall c: char
      ensures SlugChar(c) <==> c in "abcdefghijklmnopqrstuvwxyz0123456789-"
    {
      SmallLetters(c);
      Digits(c);
      assert c in "-" <==> c == '-' by {
        assert "-"[0] == '-';
      }
    }
  }

  predicate Blanks(s: string) {
    forall i :: 0 <= i < |s| ==> s[i] == ' ' || s[i] == '\t' || s[i] == '\n' || s[i] == '\r'
  }

  /** What is left without the blanks at both ends: `t` with blanks around it, and none at its own. */
  lemma {:induction false} TrimSpaceMeaning(front: string, t: string, back: string)
    requires Blanks(front) && Blanks(back) && (t != "" ==> !Blanks(t[..1]) && !Blanks(t[|t| - 1..]))
    ensures TrimSpace(front + t + back) == t
    decreases |front| + |back|
  {
    var s := front + t + back;
    if front != "" {
      assert s[0] == front[0] && s[1..] == front[1..] + t + back;
      TrimSpaceMeaning(front[1..], t, back);
    } else if t == "" && back != "" {
      assert s == back && s[0] == back[0] && s[1..] == "" + t + back[1..];
      TrimSpaceMeaning("", t, back[1..]);
    } else if back != "" {
      assert s[0] == t[0] == t[..1][0] && s[|s| - 1] == back[|back| - 1];
      assert s[..|s| - 1] == "" + t + back[..|back| - 1];
      TrimSpaceMeaning("", t, back[..|back| - 1]);
    } else {
      assert s == t;
      assert t != "" ==> t[0] == t[..1][0] && t[|t| - 1] == t[|t| - 1..][0];
    }
  }

  lemma SlugHasNoSlash(s: string)
    requires Slug(s)
    ensures '/' !in s
  {
    forall i | 0 <= i < |s|
      ensures s[i] != '/'
    {
      assert SlugChar(s[i]);
    }
  }

  // ---- Compare is a total order ----

  lemma {:induction false} CompareAntisymmetric(a: string, b: string)
    ensures Compare(a, b) < 0 <==> Compare(b, a) > 0
    ensures Compare(a, b) == 0 <==> a == b
  {
    if a != "" && b != "" && a[0] == b[0] {
      CompareAntisymmetric(a[1..], b[1..]);
      assert a == [a[0]] + a[1..] && b == [b[0]] + b[1..];
    }
  }

  lemma {:induction false} CompareTransitive(a: string, b: string, c: string)
    requires Compare(a, b) < 0 && Compare(b, c) < 0
    ensures Compare(a, c) < 0
  {
    if a != "" && b != "" && c != "" && a[0] == b[0] == c[0] {
      CompareTransitive(a[1..], b[1..], c[1..]);
      assert a == [a[0]] + a[1..] && c == [c[0]] + c[1..];
      CompareAntisymmetric(a[1..], c[1..]);
    }
  }

  /** The order is decided by the first byte that differs; a proper prefix comes first. */
  lemma {:induction false} CompareMeaning(a: string, b: string)
    ensures Compare(a, b) < 0 <==> a < b || exists k: nat :: SmallerAt(a, b, k)
  {
    if a != "" && b != "" && a[0] == b[0] {
      var s, t := a[1..], b[1..];
      CompareMeaning(s, t);
      assert a == [a[0]] + s && b == [b[0]] + t;
      SmallerFurtherOn(a, b);
    } else if a != "" && b != "" {
      assert a[..0] == b[..0] && (SmallerAt(a, b, 0) <==> a[0] < b[0]);
      forall k: nat | k > 0
        ensures !SmallerAt(a, b, k)
      {
        assert k < |a| && k < |b| ==> a[..k][0] != b[..k][0];
      }
    }
  }

  lemma SameStart(a: string, b: string, k: nat)
    requires k + 1 < |a| && k + 1 < |b| && a[0] == b[0]
    ensures a[..k + 1] == b[..k + 1] <==> a[1..][..k] == b[1..][..k]
  {
    var s, t := a[1..][..k], b[1..][..k];
    assert a[..k + 1] == [a[0]] + s && b[..k + 1] == [b[0]] + t;
    assert a[..k + 1][1..] == s && b[..k + 1][1..] == t;
  }

  lemma SmallerFurtherOn(a: string, b: string)
    requires a != "" && b != "" && a[0] == b[0]
    ensures (exists k: nat :: SmallerAt(a, b, k)) <==> exists k: nat :: SmallerAt(a[1..], b[1..], k)
  {
    forall k: nat
      ensures SmallerAt(a[1..], b[1..], k) <==> SmallerAt(a, b, k + 1)
    {
      if k + 1 < |a| && k + 1 < |b| {
        SameStart(a, b, k);
        assert a[1..][k] == a[k + 1] && b[1..][k] == b[k + 1];
      }
    }
    if k: nat :| SmallerAt(a, b, k) {
      assert k > 0 && SmallerAt(a[1..], b[1..], k - 1);
    }
  }

  ghost predicate SmallerAt(a: string, b: string, k: nat) {
    k < |a| && k < |b| && FirstDiffers(a, b, k) && a[k] < b[k]
  }

  predicate FirstDiffers(a: string, b: string, k: nat)
    requires k < |a| && k < |b|
  {
    a[..k] == b[..k] && a[k] != b[k]
  }

  // ---- Split and Join ----

  lemma {:induction false} SplitSlashFree(s: string)
    requires '/' !in s
    ensures Split(s) == [s]
  {
    if s != "" {
      SplitSlashFree(s[1..]);
      assert s == [s[0]] + s[1..];
    }
  }

  lemma {:induction false} SplitAppend(a: string, b: string)
    ensures Split(a + "/" + b) == Split(a) + Split(b)
  {
    var whole := a + "/" + b;
    if a == "" {
      assert whole[1..] == b;
    } else {
      assert whole[1..] == a[1..] + "/" + b;
      SplitAppend(a[1..], b);
    }
  }

  lemma {:induction false} JoinAppend(a: seq<string>, b: seq<string>)
    requires |a| >= 1 && |b| >= 1
    ensures Join(a + b) == Join(a) + "/" + Join(b)
  {
    if |a| == 1 {
      assert (a + b)[1..] == b;
    } else {
      assert (a + b)[1..] == a[1..] + b;
      JoinAppend(a[1..], b);
      assert Join(a + b) == a[0] + "/" + (Join(a[1..]) + "/" + Join(b));
      assert Join(a) == a[0] + "/" + Join(a[1..]);
    }
  }

  lemma {:induction false} JoinSplit(s: string)
    ensures Join(Split(s)) == s
  {
    if s != "" {
      JoinSplit(s[1..]);
      assert s == [s[0]] + s[1..];
      if s[0] == '/' {
        JoinAppend([""], Split(s[1..]));
      } else {
        JoinGrownHead(s[0], Split(s[1..]));
      }
    }
  }

  lemma JoinGrownHead(c: char, parts: seq<string>)
    requires parts != []
    ensures Join([[c] + parts[0]] + parts[1..]) == [c] + Join(parts)
  {
    var grown := [[c] + parts[0]] + parts[1..];
    assert grown[1..] == parts[1..];
    if |parts| > 1 {
      assert ([c] + parts[0]) + "/" + Join(parts[1..]) == [c] + (parts[0] + "/" + Join(parts[1..]));
    }
  }

  lemma {:induction false} SplitInjective(a: string, b: string)
    requires Split(a) == Split(b)
    ensures a == b
  {
    JoinSplit(a);
    JoinSplit(b);
  }

  lemma {:induction false} SplitPartsSlashFree(s: string)
    ensures forall i :: 0 <= i < |Split(s)| ==> '/' !in Split(s)[i]
  {
    if s != "" {
      SplitPartsSlashFree(s[1..]);
    }
  }

  /** Extending the list of segments is the same as extending the text past a slash. */
  lemma {:induction false} SplitPrefix(p: string, s: string)
    requires Split(p) <= Split(s) && |Split(p)| < |Split(s)|
    ensures p + "/" <= s
  {
    var tail := Split(s)[|Split(p)|..];
    assert Split(s) == Split(p) + tail;
    JoinAppend(Split(p), tail);
    JoinSplit(p);
    JoinSplit(s);
  }

  lemma TrimNoSlash(s: string)
    requires s == "" || s[|s| - 1] != '/'
    ensures TrimSuffix(s, "/") == s
  {
    assert s != "" ==> s[|s| - 1..] == [s[|s| - 1]];
  }

  lemma TrimSlash(s: string)
    ensures TrimSuffix(s + "/", "/") == s
  {
    assert (s + "/")[|s|..] == "/";
    assert (s + "/")[..|s|] == s;
  }

  lemma LastIndexAt(s: string, c: char, i: int)
    requires -1 <= i < |s|
    requires i >= 0 ==> s[i] == c
    requires forall j :: i < j < |s| ==> s[j] != c
    ensures LastIndex(s, c) == i
  {
  }

  /** A directory prefix followed by a slash-free name splits back into the two. */
  lemma DirOfChild(dir: string, name: string)
    requires '/' !in name
    requires dir == "" || HasSuffix(dir, "/")
    ensures DirOf(dir + name) == dir && LastSegment(dir + name) == name
  {
    assert dir != "" ==> dir[|dir| - 1] == '/' by {
      assert dir != "" ==> dir[|dir| - 1..][0] == dir[|dir| - 1];
    }
    assert forall j :: |dir| <= j < |dir + name| ==> (dir + name)[j] == name[j - |dir|];
    LastIndexAt(dir + name, '/', |dir| - 1);
    assert (dir + name)[..|dir|] == dir && (dir + name)[|dir|..] == name;
  }
}
