/** Extraction of the image code from a request URL: the server takes the
    second field of `url.split('/')`, which is `undefined` when the URL holds
    no slash at all. */
module Url {
  import opened Wrappers

  const SLASH: char := '/'

  /** First position of `c` in `s`, like JavaScript's `indexOf` (which
      answers -1 where this answers None). */
  function IndexOf(s: string, c: char): (r: Option<nat>)
    ensures r.None? <==> c !in s
    ensures r.Some? ==> r.value < |s| && s[r.value] == c && c !in s[..r.value]
  {
    if s == [] then None
    else if s[0] == c then Some(0)
    else match IndexOf(s[1..], c)
      case None => None
      case Some(i) =>
        assert s[..i + 1] == [s[0]] + s[1..][..i];
        Some(i + 1)
  }

  /** The first occurrence of `c` is the unique position before which `c`
      does not occur. */
  lemma IndexOfFirst(s: string, c: char, i: nat)
    requires i < |s| && s[i] == c && c !in s[..i]
    ensures IndexOf(s, c) == Some(i)
  {
    assert s[i] == c;
  }

  /** `s.split(sep)` for a one-character separator: the fields between
      consecutive separators, so a string with k separators has k + 1
      fields, some of which may be empty. */
  function Split(s: string, sep: char): (parts: seq<string>)
    ensures |parts| >= 1
    decreases |s|
  {
    match IndexOf(s, sep)
    case None => [s]
    case Some(i) => [s[..i]] + Split(s[i + 1..], sep)
  }

  /** `parts.join(sep)`, the inverse of Split. */
  function Join(parts: seq<string>, sep: char): string
    requires |parts| >= 1
  {
    if |parts| == 1 then parts[0] else parts[0] + [sep] + Join(parts[1..], sep)
  }

  lemma {:induction false} SplitJoin(s: string, sep: char)
    ensures Join(Split(s, sep), sep) == s
    decreases |s|
  {
    match IndexOf(s, sep)
    case None =>
    case Some(i) =>
      var tail := Split(s[i + 1..], sep);
      assert Split(s, sep) == [s[..i]] + tail;
      assert ([s[..i]] + tail)[1..] == tail;
      calc {
        Join(Split(s, sep), sep);
        s[..i] + [sep] + Join(tail, sep);
        { SplitJoin(s[i + 1..], sep); }
        s[..i] + [sep] + s[i + 1..];
        s;
      }
  }

  /** Splitting a join of separator-free fields gives the fields back, so
      Split and Join are inverse to each other. */
  lemma {:induction false} JoinSplit(parts: seq<string>, sep: char)
    requires |parts| >= 1
    requires forall k :: 0 <= k < |parts| ==> sep !in parts[k]
    ensures Split(Join(parts, sep), sep) == parts
    decreases |parts|
  {
    if |parts| == 1 {
      assert Join(parts, sep) == parts[0];
      assert IndexOf(parts[0], sep).None?;
    } else {
      var rest := Join(parts[1..], sep);
      var s := parts[0] + [sep] + rest;
      assert Join(parts, sep) == s;
      assert s[..|parts[0]|] == parts[0];
      SplitAt(s, sep, |parts[0]|);
      assert s[|parts[0]| + 1..] == rest;
      JoinSplit(parts[1..], sep);
      assert parts == [parts[0]] + parts[1..];
    }
  }

  lemma {:induction false} SplitFieldsAvoidSep(s: string, sep: char)
    ensures forall k :: 0 <= k < |Split(s, sep)| ==> sep !in Split(s, sep)[k]
    decreases |s|
  {
    match IndexOf(s, sep)
    case None =>
    case Some(i) =>
      SplitFieldsAvoidSep(s[i + 1..], sep);
  }

  /** There is a second field exactly when the separator occurs. */
  lemma SplitHasSecondField(s: string, sep: char)
    ensures |Split(s, sep)| >= 2 <==> sep in s
  {
  }

  /** When the separator occurs at `i` and not before, the fields after the
      first are the fields of what follows position `i`. */
  lemma SplitAt(s: string, sep: char, i: nat)
    requires i < |s| && s[i] == sep && sep !in s[..i]
    ensures Split(s, sep) == [s[..i]] + Split(s[i + 1..], sep)
  {
    IndexOfFirst(s, sep, i);
  }

  /** The first field is everything before the first separator, or the whole
      string when there is none. */
  lemma SplitFirstField(first: string, sep: char, rest: string)
    requires sep !in first
    requires rest == [] || rest[0] == sep
    ensures Split(first + rest, sep)[0] == first
  {
    var s := first + rest;
    if rest == [] {
      assert s == first;
    } else {
      assert s[..|first|] == first;
      SplitAt(s, sep, |first|);
    }
  }

  /** The code of a request URL: `url.split('/')[1]`, None where JavaScript
      gives `undefined`. */
  function UrlCode(url: string): (code: Option<string>)
    ensures code.Some? <==> SLASH in url
    ensures code.Some? ==> SLASH !in code.value
  {
    var parts := Split(url, SLASH);
    SplitHasSecondField(url, SLASH);
    SplitFieldsAvoidSep(url, SLASH);
    if |parts| < 2 then None else Some(parts[1])
  }

  /** The code is exactly the text between the first slash and the next
      slash (or the end of the URL). Together with UrlCode's own contract
      this determines the code of every URL. */
  lemma UrlCodeIsSecondSegment(first: string, code: string, rest: string)
    requires SLASH !in first && SLASH !in code
    requires rest == [] || rest[0] == SLASH
    ensures UrlCode(first + [SLASH] + code + rest) == Some(code)
  {
    var url := first + [SLASH] + code + rest;
    assert url[..|first|] == first;
    SplitAt(url, SLASH, |first|);
    assert url[|first| + 1..] == code + rest;
    SplitFirstField(code, SLASH, rest);
  }

  /** The examples of the request paths the server answers. */
  lemma UrlCodeExamples()
    ensures UrlCode("/200") == Some("200")
    ensures UrlCode("/404/extra") == Some("404")
    ensures UrlCode("/") == Some("")
    ensures UrlCode("200") == None
  {
    UrlCodeIsSecondSegment("", "200", "");
    assert "/200" == "" + [SLASH] + "200" + "";
    UrlCodeIsSecondSegment("", "404", "/extra");
    assert "/404/extra" == "" + [SLASH] + "404" + "/extra";
    UrlCodeIsSecondSegment("", "", "");
    assert "/" == "" + [SLASH] + "" + "";
  }
}
