/** The string operations the importers lean on: trimming, splitting and joining. */
module Text {

  datatype Option<+T> = None | Some(value: T)

  /** The white space `strings.TrimSpace` removes (Unicode White_Space). */
  predicate IsSpace(c: char) {
    || '\t' <= c <= '\r' || c == ' ' || c == '\U{0085}' || c == '\U{00A0}' || c == '\U{1680}'
    || '\U{2000}' <= c <= '\U{200A}' || c == '\U{2028}' || c == '\U{2029}' || c == '\U{202F}'
    || c == '\U{205F}' || c == '\U{3000}'
  }

  function TrimLeft(s: string): string {
    if s != "" && IsSpace(s[0]) then TrimLeft(s[1..]) else s
  }

  function TrimRight(s: string): string {
    if s != "" && IsSpace(s[|s| - 1]) then TrimRight(s[..|s| - 1]) else s
  }

  function TrimSpace(s: string): string {
    TrimRight(TrimLeft(s))
  }

  /** No white space at either end. */
  predicate Trimmed(s: string) {
    s == "" || (!IsSpace(s[0]) && !IsSpace(s[|s| - 1]))
  }

  predicate AllSpace(s: string) {
    forall i :: 0 <= i < |s| ==> IsSpace(s[i])
  }

  lemma {:induction false} TrimLeftCuts(s: string) returns (pre: string)
    ensures TrimLeft(s) == "" || !IsSpace(TrimLeft(s)[0])
    ensures s == pre + TrimLeft(s) && AllSpace(pre)
  {
    pre := "";
    if s != "" && IsSpace(s[0]) {
      pre := TrimLeftCuts(s[1..]);
      pre := [s[0]] + pre;
    }
  }

  lemma {:induction false} TrimRightCuts(s: string) returns (post: string)
    ensures TrimRight(s) == "" || !IsSpace(TrimRight(s)[|TrimRight(s)| - 1])
    ensures s == TrimRight(s) + post && AllSpace(post)
  {
    post := "";
    if s != "" && IsSpace(s[|s| - 1]) {
      post := TrimRightCuts(s[..|s| - 1]);
      post := post + [s[|s| - 1]];
    }
  }

  /** Trimming cuts white space off both ends, and all of it, and so leaves trimmed strings alone. */
  lemma TrimSpaceTrims(s: string) returns (pre: string, post: string)
    ensures s == pre + TrimSpace(s) + post && AllSpace(pre) && AllSpace(post)
    ensures Trimmed(TrimSpace(s))
    ensures TrimSpace(s) == s <==> Trimmed(s)
  {
    pre := TrimLeftCuts(s);
    post := TrimRightCuts(TrimLeft(s));
    assert s == pre + (TrimSpace(s) + post);
  }

  /** `strings.Split` on a single separator character: always at least one part. */
  function Split(s: string, sep: char): (parts: seq<string>)
    ensures |parts| >= 1
  {
    if s == "" then [""]
    else
      var rest := Split(s[1..], sep);
      if s[0] == sep then [""] + rest else [[s[0]] + rest[0]] + rest[1..]
  }

  /** `strings.Join` with a single separator character. */
  function Join(parts: seq<string>, sep: char): string {
    if parts == [] then ""
    else if |parts| == 1 then parts[0]
    else parts[0] + [sep] + Join(parts[1..], sep)
  }

  predicate Free(s: string, sep: char) {
    forall i :: 0 <= i < |s| ==> s[i] != sep
  }

  lemma {:induction false} SplitPrefix(head: string, tail: string, sep: char)
    requires Free(head, sep)
    ensures Split(head + tail, sep) == [head + Split(tail, sep)[0]] + Split(tail, sep)[1..]
  {
    if head == "" {
      assert head + tail == tail;
      assert head + Split(tail, sep)[0] == Split(tail, sep)[0];
    } else {
      SplitPrefix(head[1..], tail, sep);
      assert (head + tail)[1..] == head[1..] + tail;
      assert [head[0]] + (head[1..] + Split(tail, sep)[0]) == head + Split(tail, sep)[0];
    }
  }

  /** Splitting undoes joining as long as no part holds the separator. */
  lemma {:induction false} SplitJoin(parts: seq<string>, sep: char)
    requires parts != []
    requires forall i :: 0 <= i < |parts| ==> Free(parts[i], sep)
    ensures Split(Join(parts, sep), sep) == parts
  {
    if |parts| == 1 {
      SplitPrefix(parts[0], "", sep);
      assert parts[0] + "" == parts[0];
    } else {
      var rest := Join(parts[1..], sep);
      SplitJoin(parts[1..], sep);
      SplitPrefix(parts[0], [sep] + rest, sep);
      assert parts[0] + [sep] + rest == parts[0] + ([sep] + rest);
      assert ([sep] + rest)[1..] == rest;
      assert parts[0] + "" == parts[0];
      assert Split([sep] + rest, sep) == [""] + parts[1..];
    }
  }
}
