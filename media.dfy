/** The media host's "public id" of a stored image URL:
    `url.split("/").pop().split(".")[0]`. */
module Media {
  import opened Common
  import opened Seqs

  /** JavaScript's `s.split(sep)` for a one-character separator: never empty. */
  function Split(s: string, sep: char): (r: seq<string>)
    ensures |r| >= 1
    decreases |s|
  {
    match IndexOf(s, sep)
    case None => [s]
    case Some(i) => [s[..i]] + Split(s[i + 1..], sep)
  }

  function Last<T>(s: seq<T>): T
    requires |s| > 0
  {
    s[|s| - 1]
  }

  /** What follows the last `sep`, or all of `s`. */
  function AfterLast(s: string, sep: char): (r: string)
    ensures sep !in r
    ensures |r| <= |s| && r == s[|s| - |r|..]
    ensures sep in s ==> s[|s| - |r| - 1] == sep
    ensures sep !in s ==> r == s
  {
    match LastIndexOf(s, sep)
    case None => s
    case Some(i) => s[i + 1..]
  }

  /** What precedes the first `sep`, or all of `s`. */
  function BeforeFirst(s: string, sep: char): (r: string)
    ensures sep !in r
    ensures |r| <= |s| && r == s[..|r|]
    ensures sep in s ==> s[|r|] == sep
    ensures sep !in s ==> r == s
  {
    match IndexOf(s, sep)
    case None => s
    case Some(i) => s[..i]
  }

  /** The public id: the part before the first `.` of the segment after the last `/`. */
  function PublicId(url: string): (r: string)
    ensures '/' !in r && '.' !in r
    ensures |r| <= |AfterLast(url, '/')|
    ensures r == AfterLast(url, '/')[..|r|]
    ensures '.' in AfterLast(url, '/') ==> AfterLast(url, '/')[|r|] == '.'
    ensures '.' !in AfterLast(url, '/') ==> r == AfterLast(url, '/')
  {
    var segment := AfterLast(url, '/');
    assert forall c :: c in segment[..|BeforeFirst(segment, '.')|] ==> c in segment;
    BeforeFirst(segment, '.')
  }

  /** `split(sep)[0]` is the text before the first separator. */
  lemma SplitHead(s: string, sep: char)
    ensures Split(s, sep)[0] == BeforeFirst(s, sep)
  {
  }

  /** `split(sep).pop()` is the text after the last separator. */
  lemma {:induction false} SplitLast(s: string, sep: char)
    ensures Last(Split(s, sep)) == AfterLast(s, sep)
    decreases |s|
  {
    match IndexOf(s, sep)
    case None =>
      assert Split(s, sep) == [s];
    case Some(i) =>
      var tail := Split(s[i + 1..], sep);
      assert Split(s, sep) == [s[..i]] + tail;
      assert Last(Split(s, sep)) == Last(tail);
      SplitLast(s[i + 1..], sep);
      AfterLastDrop(s, sep, i);
  }

  /** Dropping everything up to one separator keeps the text after the last one. */
  lemma AfterLastDrop(s: string, sep: char, i: nat)
    requires i < |s| && s[i] == sep
    ensures AfterLast(s[i + 1..], sep) == AfterLast(s, sep)
  {
    var rest := s[i + 1..];
    if sep in rest {
      var k := LastIndexOf(rest, sep).value;
      assert rest[k + 1..] == s[i + 1 + k + 1..];
      LastIsLatest(s, sep, i + 1 + k);
    } else {
      LastIsLatest(s, sep, i);
    }
  }

  /** A separator at `j` with none after it is the last one. */
  lemma LastIsLatest(s: string, sep: char, j: nat)
    requires j < |s| && s[j] == sep && sep !in s[j + 1..]
    ensures LastIndexOf(s, sep) == Some(j)
  {
  }

  /** The direct definition is `url.split("/").pop().split(".")[0]`, step by step. */
  lemma PublicIdIsSplitPopSplit(url: string)
    ensures PublicId(url) == Split(Last(Split(url, '/')), '.')[0]
  {
    SplitLast(url, '/');
    SplitHead(AfterLast(url, '/'), '.');
  }
}
