/**
 * The text handling of OpenAIService around its REST calls: the API-key
 * guard that chooses the request flavour, and the extraction of the JSON
 * object from a model reply (the span from the first `{` to the last `}`,
 * with comment lines, blank lines and single-line block comments removed).
 */
module OpenAIService {
  import opened Wrappers
  import opened Seqs
  import opened JavaText

  // ------------------------------------------------------------ key guard

  /** The two request flavours: project keys and standard keys. */
  datatype KeyKind = ProjectKey | StandardKey

  const MissingKeyMessage: string := "OpenAI API key is not configured"

  /** The guard of `analyzeChartRequest` and `generateChartConfig`. */
  function KeyKindOf(apiKey: Option<string>): Result<KeyKind, string> {
    if apiKey.None? || apiKey.value == "" then Failure(MissingKeyMessage)
    else if StartsWith(apiKey.value, "sk-proj-") then Success(ProjectKey)
    else Success(StandardKey)
  }

  /** No request is made without a key; a key chooses the project flavour exactly when it starts with "sk-proj-". */
  lemma KeyGuard(apiKey: Option<string>)
    ensures KeyKindOf(apiKey).Failure? <==> apiKey.None? || apiKey.value == ""
    ensures KeyKindOf(apiKey).Failure? ==> KeyKindOf(apiKey).error == MissingKeyMessage
    ensures KeyKindOf(apiKey) == Success(ProjectKey) <==> apiKey.Some? && StartsWith(apiKey.value, "sk-proj-")
  {
  }

  // --------------------------------------------------------- comment lines

  /** A line `removeComments` keeps: not blank after trimming and not a `//` line. */
  predicate IsContentLine(line: string) {
    var t := Trim(line);
    !StartsWith(t, "//") && t != ""
  }

  /** The kept lines, each followed by a newline (the `StringBuilder` contents). */
  function JoinLines(lines: seq<string>): string {
    if lines == [] then "" else JoinLines(lines[..|lines| - 1]) + (lines[|lines| - 1] + "\n")
  }

  /** The lines of `json` that `removeComments` keeps, untrimmed and in order. */
  function KeptLines(json: string): (r: seq<string>)
    ensures IsSubsequence(r, Split(json, "\n"))
    ensures forall line :: line in r <==> line in Split(json, "\n") && IsContentLine(line)
  {
    FilterMembership(Split(json, "\n"), IsContentLine);
    Filter(Split(json, "\n"), IsContentLine)
  }

  // -------------------------------------------------------- block comments

  /** The chars the regular-expression `.` does not match. */
  predicate IsLineTerminator(c: char) {
    c == '\n' || c == '\r' || c == '\U{0085}' || c == '\U{2028}' || c == '\U{2029}'
  }

  /**
   * The position of the first closer (star, slash) at or after `j` when no
   * line terminator comes before it: where the reluctant `.*?` of the
   * pattern stops.
   */
  function CommentEnd(s: string, j: nat): (r: Option<nat>)
    requires j <= |s|
    ensures r.Some? ==> j <= r.value && r.value + 2 <= |s| && StartsWith(s[r.value..], "*/")
    ensures r.Some? ==> forall k :: j <= k < r.value ==> !IsLineTerminator(s[k]) && !StartsWith(s[k..], "*/")
    decreases |s| - j
  {
    if j == |s| then None
    else if StartsWith(s[j..], "*/") then Some(j)
    else if IsLineTerminator(s[j]) then None
    else CommentEnd(s, j + 1)
  }

  /**
   * `replaceAll` of the block-comment pattern (slash, star, reluctant `.*?`,
   * star, slash) by "": every leftmost shortest block comment within one
   * line is removed.
   */
  function StripBlockComments(s: string): (r: string)
    ensures |r| <= |s|
    decreases |s|
  {
    if |s| < 2 then s
    else if StartsWith(s, "/*") && CommentEnd(s, 2).Some? then StripBlockComments(s[CommentEnd(s, 2).value + 2..])
    else [s[0]] + StripBlockComments(s[1..])
  }

  /** What `removeComments` returns. */
  function CommentsRemoved(json: string): string {
    Trim(StripBlockComments(JoinLines(KeptLines(json))))
  }

  /** The `StringBuilder` contents after the line loop has read `lines`, keeping the lines `keep` accepts. */
  function KeptText(lines: seq<string>, keep: string -> bool): string {
    if lines == [] then ""
    else
      var last := lines[|lines| - 1];
      KeptText(lines[..|lines| - 1], keep) + (if keep(last) then last + "\n" else "")
  }

  /** The builder holds the kept lines, each followed by a newline. */
  lemma {:induction false} KeptTextJoinsKept(lines: seq<string>, keep: string -> bool)
    ensures KeptText(lines, keep) == JoinLines(Filter(lines, keep))
  {
    if lines != [] {
      var front := lines[..|lines| - 1];
      var last := lines[|lines| - 1];
      KeptTextJoinsKept(front, keep);
      assert lines == front + [last];
      FilterSnoc(front, last, keep);
      var kept := Filter(front, keep);
      assert Filter(lines, keep) == kept + (if keep(last) then [last] else []);
      if keep(last) {
        assert (kept + [last])[..|kept|] == kept;
        calc {
          KeptText(lines, keep);
          KeptText(front, keep) + (last + "\n");
          JoinLines(kept) + (last + "\n");
          JoinLines(kept + [last]);
        }
      } else {
        calc {
          KeptText(lines, keep);
          KeptText(front, keep) + "";
          { assert KeptText(front, keep) + "" == KeptText(front, keep); }
          JoinLines(kept);
        }
        assert kept + [] == kept;
      }
    }
  }

  /**
   * The line loop of `removeComments`: each line that `keep` accepts (there,
   * `IsContentLine`) is appended to a `StringBuilder` with a newline.
   */
  method AppendKeptLines(lines: seq<string>, keep: string -> bool) returns (builder: string)
    ensures builder == KeptText(lines, keep)
  {
    builder := "";
    for k := 0 to |lines|
      invariant builder == KeptText(lines[..k], keep)
    {
      assert lines[..k + 1][..k] == lines[..k];
      if keep(lines[k]) {
        builder := builder + (lines[k] + "\n");
      }
    }
    assert lines[..|lines|] == lines;
  }

  /** `removeComments`: the line loop, then the block-comment pass and a trim. */
  method RemoveComments(json: string) returns (cleaned: string)
    ensures cleaned == CommentsRemoved(json)
  {
    var builder := AppendKeptLines(Split(json, "\n"), IsContentLine);
    KeptTextJoinsKept(Split(json, "\n"), IsContentLine);
    cleaned := Trim(StripBlockComments(builder));
  }

  /** Dropping the first character of a text without a comment opener (slash, star) leaves one without. */
  lemma NoOpenerTail(s: string)
    requires s != [] && !Contains(s, "/*")
    ensures !Contains(s[1..], "/*")
  {
    ContainsIff(s, "/*");
    ContainsIff(s[1..], "/*");
    forall i | 0 <= i <= |s[1..]| ensures !StartsWith(s[1..][i..], "/*") {
      assert s[1..][i..] == s[i + 1..];
    }
  }

  /** A text that does not start with a comment opener keeps its first character. */
  lemma StripStep(s: string)
    requires |s| >= 2 && !StartsWith(s, "/*")
    ensures StripBlockComments(s) == [s[0]] + StripBlockComments(s[1..])
  {
  }

  /** Text without a comment opener (slash, star) is left alone by the block-comment pass. */
  lemma {:induction false} StripWithoutComments(s: string)
    requires !Contains(s, "/*")
    ensures StripBlockComments(s) == s
    decreases |s|
  {
    if |s| >= 2 {
      assert !StartsWith(s, "/*") by { ContainsIff(s, "/*"); assert s[0..] == s; }
      NoOpenerTail(s);
      StripWithoutComments(s[1..]);
      StripStep(s);
      assert s == [s[0]] + s[1..];
    }
  }

  /** The comment that starts a text ends at the first closer (star, slash) when no line break comes before it. */
  lemma CommentEndAt(c: string, b: string)
    requires forall k :: 0 <= k < |c| ==> !IsLineTerminator(c[k])
    requires !Contains(c, "*/")
    ensures CommentEnd("/*" + c + "*/" + b, 2) == Some(2 + |c|)
  {
    var s := "/*" + c + "*/" + b;
    var r := CommentEnd(s, 2);
    assert s[2 + |c|..][..2] == "*/";
    CommentEndFrom(s, c, 2);
  }

  lemma {:induction false} CommentEndFrom(s: string, c: string, j: nat)
    requires |s| >= 4 + |c| && s[2..2 + |c|] == c && s[2 + |c|..4 + |c|] == "*/"
    requires 2 <= j <= 2 + |c|
    requires forall k :: 0 <= k < |c| ==> !IsLineTerminator(c[k])
    requires !Contains(c, "*/")
    ensures CommentEnd(s, j) == Some(2 + |c|)
    decreases 2 + |c| - j
  {
    if j < 2 + |c| {
      assert s[j] == c[j - 2];
      assert !StartsWith(s[j..], "*/") by {
        if j + 2 <= 2 + |c| {
          ContainsIff(c, "*/");
          assert c[j - 2..][..2] == s[j..][..2];
        } else {
          // the next char is the star of the closer
          assert s[j + 1] == '*';
        }
      }
      CommentEndFrom(s, c, j + 1);
    } else {
      assert s[j..][..2] == "*/";
    }
  }

  /** A block comment within one line at the start of a text is removed. */
  lemma StripLeadingComment(c: string, b: string)
    requires forall k :: 0 <= k < |c| ==> !IsLineTerminator(c[k])
    requires !Contains(c, "*/")
    ensures StripBlockComments("/*" + c + "*/" + b) == StripBlockComments(b)
  {
    var s := "/*" + c + "*/" + b;
    CommentEndAt(c, b);
    assert s[..2] == "/*";
    assert s[2 + |c| + 2..] == b;
  }

  /** A text that begins with a non-empty part free of comment openers, followed by a slash, does not begin with an opener. */
  lemma OpenerNotAtStart(a: string, rest: string)
    requires a != [] && !Contains(a, "/*")
    requires rest != [] && rest[0] == '/'
    ensures !StartsWith(a + rest, "/*")
  {
    var s := a + rest;
    ContainsIff(a, "/*");
    if |a| >= 2 { assert a[0..][..2] == s[..2]; } else { assert s[1] == '/'; }
  }

  /**
   * Text without a comment opener in front of a text that starts with a
   * slash is kept as it is: no comment starts inside it or across the seam.
   */
  lemma {:induction false} StripPrefix(a: string, rest: string)
    requires !Contains(a, "/*")
    requires rest != [] && rest[0] == '/'
    ensures StripBlockComments(a + rest) == a + StripBlockComments(rest)
    decreases |a|
  {
    if a == [] {
      assert a + rest == rest;
    } else {
      var s := a + rest;
      var t := a[1..] + rest;
      assert s == [a[0]] + t;
      OpenerNotAtStart(a, rest);
      StripStep(s);
      assert s[1..] == t;
      NoOpenerTail(a);
      StripPrefix(a[1..], rest);
      calc {
        StripBlockComments(s);
        [a[0]] + StripBlockComments(t);
        [a[0]] + (a[1..] + StripBlockComments(rest));
        ([a[0]] + a[1..]) + StripBlockComments(rest);
        { assert a == [a[0]] + a[1..]; }
        a + StripBlockComments(rest);
      }
    }
  }

  /**
   * A block comment within one line is removed, and the text before it,
   * which holds no comment opener (slash, star), is kept as it is.
   */
  lemma StripOneComment(a: string, c: string, b: string)
    requires !Contains(a, "/*")
    requires forall k :: 0 <= k < |c| ==> !IsLineTerminator(c[k])
    requires !Contains(c, "*/")
    ensures StripBlockComments(a + "/*" + c + "*/" + b) == a + StripBlockComments(b)
  {
    var rest := "/*" + c + "*/" + b;
    assert a + "/*" + c + "*/" + b == a + rest;
    StripPrefix(a, rest);
    StripLeadingComment(c, b);
  }

  // ------------------------------------------------------------- the reply

  datatype JsonError = NoJsonFound | InvalidJson

  /**
   * The span `extractJsonFromResponse` cuts out: from the first `{` up to
   * just after the last `}`, when that end lies after the start.
   */
  function JsonSpan(response: string): (r: Option<(nat, nat)>)
    ensures r.Some? ==> r.value.0 < r.value.1 <= |response|
  {
    var start := IndexOf(response, "{");
    var end := LastIndexOf(response, "}") + 1;
    if start >= 0 && end > start then Some((start, end)) else None
  }

  /**
   * A span exists exactly when there is a `{` with a `}` after it; it then
   * starts at a `{` with none before it and ends just after a `}` with none
   * after it.
   */
  lemma JsonSpanBounds(response: string)
    ensures JsonSpan(response).Some? <==>
      Contains(response, "{") && IndexOf(response, "{") < LastIndexOf(response, "}")
    ensures JsonSpan(response).Some? ==>
      var (start, end) := JsonSpan(response).value;
      && response[start] == '{' && response[end - 1] == '}'
      && (forall i :: 0 <= i < start ==> response[i] != '{')
      && (forall i :: end <= i < |response| ==> response[i] != '}')
  {
    var start := IndexOf(response, "{");
    var last := LastIndexOf(response, "}");
    if start >= 0 {
      assert response[start..][..1] == "{";
    }
    if last >= 0 {
      assert response[last..][..1] == "}";
    }
    if start >= 0 && start <= last {
      forall i | 0 <= i < start ensures response[i] != '{' {
        assert !StartsWith(response[i..], "{");
        assert response[i..][..1] == [response[i]];
      }
      forall i | last < i < |response| ensures response[i] != '}' {
        assert !StartsWith(response[i..], "}");
        assert response[i..][..1] == [response[i]];
      }
    }
  }

  /**
   * `extractJsonFromResponse`: the span cleaned by `removeComments`, when
   * the JSON parser `isJson` accepts it.
   */
  function ExtractJson(response: string, isJson: string -> bool): (r: Result<string, JsonError>)
    ensures r == Failure(NoJsonFound) <==> JsonSpan(response).None?
    ensures r.Success? ==> isJson(r.value)
    ensures JsonSpan(response).Some? ==>
      var (start, end) := JsonSpan(response).value;
      r == (if isJson(CommentsRemoved(response[start..end])) then Success(CommentsRemoved(response[start..end]))
            else Failure(InvalidJson))
  {
    match JsonSpan(response)
    case None => Failure(NoJsonFound)
    case Some((start, end)) =>
      var cleaned := CommentsRemoved(response[start..end]);
      if isJson(cleaned) then Success(cleaned) else Failure(InvalidJson)
  }
}
