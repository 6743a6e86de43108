/** The java.lang.String operations the modelled code relies on, written out
    with Java's semantics: `lastIndexOf`, regex `split(".")` and
    `replaceAll(".", "")` (the regex `.` matches every character except a
    line terminator), `split("\\.")` on a literal dot, the literal
    `replace("\\$$", "$$")`, and the capitalisation used to derive accessor
    names. */
module JavaStrings {
  import opened Wrappers

  /** The characters Java's regex `.` does not match (no DOTALL flag). */
  predicate IsLineTerminator(c: char) {
    c == '\n' || c == '\r' || c == '\U{0085}' || c == '\U{2028}' || c == '\U{2029}'
  }

  predicate NoLineTerminator(s: string) {
    forall i :: 0 <= i < |s| ==> !IsLineTerminator(s[i])
  }

  /** `s.lastIndexOf(c)`: the last index holding `c`, or -1. */
  function LastIndexOf(s: string, c: char): (r: int)
    ensures -1 <= r < |s|
    ensures r == -1 <==> c !in s
    ensures r >= 0 ==> s[r] == c && forall j :: r < j < |s| ==> s[j] != c
  {
    if s == [] then -1
    else if s[|s| - 1] == c then |s| - 1
    else LastIndexOf(s[..|s| - 1], c)
  }

  // ---------------------------------------------------------------------------
  // split(".") and replaceAll(".", "")

  /** The pieces between consecutive matches of `.`: one more piece than
      there are non-terminator characters; each piece is a run of line
      terminators, possibly empty. */
  function Pieces(s: string): (r: seq<string>)
    ensures |r| >= 1
  {
    if s == [] then [""]
    else
      var rest := Pieces(s[1..]);
      if IsLineTerminator(s[0]) then [[s[0]] + rest[0]] + rest[1..]
      else [""] + rest
  }

  /** `split` with limit 0 drops trailing empty strings. */
  function TrimTrailingEmpty(p: seq<string>): (r: seq<string>)
    ensures |r| <= |p| && r == p[..|r|]
    ensures |r| > 0 ==> r[|r| - 1] != ""
    ensures forall i :: |r| <= i < |p| ==> p[i] == ""
  {
    if |p| > 0 && p[|p| - 1] == "" then TrimTrailingEmpty(p[..|p| - 1]) else p
  }

  /** `s.split(".")`. When the regex matches nowhere Java returns `[s]`. */
  function SplitDot(s: string): seq<string> {
    if forall i :: 0 <= i < |s| ==> IsLineTerminator(s[i]) then [s]
    else TrimTrailingEmpty(Pieces(s))
  }

  /** `s.replaceAll(".", "")`: only the line terminators survive. */
  function ReplaceAllDot(s: string): (r: string)
    ensures |r| <= |s|
    ensures forall i :: 0 <= i < |r| ==> IsLineTerminator(r[i])
  {
    if s == [] then []
    else (if IsLineTerminator(s[0]) then [s[0]] else []) + ReplaceAllDot(s[1..])
  }

  lemma {:induction false} PiecesOfPlainText(s: string)
    requires NoLineTerminator(s)
    ensures Pieces(s) == seq(|s| + 1, _ => "")
  {
    if s != [] {
      PiecesOfPlainText(s[1..]);
    }
  }

  lemma {:induction false} TrimAllEmpty(n: nat)
    ensures TrimTrailingEmpty(seq(n, _ => "")) == []
  {
    if n > 0 {
      assert seq(n, _ => "")[..n - 1] == seq(n - 1, _ => "");
      TrimAllEmpty(n - 1);
    }
  }

  /** A key without line terminators is cut at every character: every piece
      is empty, so `split(".")` yields no segment at all (and `[""]` for the
      empty key). */
  lemma SplitDotOfPlainText(s: string)
    requires NoLineTerminator(s)
    ensures s == "" ==> SplitDot(s) == [""]
    ensures s != "" ==> SplitDot(s) == []
  {
    if s != "" {
      assert !IsLineTerminator(s[0]);
      PiecesOfPlainText(s);
      TrimAllEmpty(|s| + 1);
    }
  }

  lemma {:induction false} PiecesAreTerminatorRuns(s: string)
    ensures forall k, i :: 0 <= k < |Pieces(s)| && 0 <= i < |Pieces(s)[k]| ==> IsLineTerminator(Pieces(s)[k][i])
  {
    if s != [] {
      PiecesAreTerminatorRuns(s[1..]);
    }
  }

  /** Whatever the key, a segment produced by `split(".")` on a key that has
      some ordinary character consists of line terminators only. */
  lemma SplitDotSegments(s: string)
    requires !NoLineTerminator(s)
    ensures forall k, i :: 0 <= k < |SplitDot(s)| && 0 <= i < |SplitDot(s)[k]| ==> IsLineTerminator(SplitDot(s)[k][i])
  {
    PiecesAreTerminatorRuns(s);
  }

  /** A class name has no line terminator, so `getName().replaceAll(".", "")`
      is always empty. */
  lemma {:induction false} ReplaceAllDotOfPlainText(s: string)
    requires NoLineTerminator(s)
    ensures ReplaceAllDot(s) == ""
  {
    if s != [] {
      ReplaceAllDotOfPlainText(s[1..]);
    }
  }

  // ---------------------------------------------------------------------------
  // split("\\.")

  /** The pieces between consecutive literal dots, empty pieces kept. */
  function DotPieces(s: string): (r: seq<string>)
    ensures |r| >= 1
  {
    if s == [] then [""]
    else
      var rest := DotPieces(s[1..]);
      if s[0] == '.' then [""] + rest
      else [[s[0]] + rest[0]] + rest[1..]
  }

  /** `s.split("\\.")`: cut at every literal dot, trailing empty strings
      dropped; `[s]` when there is no dot. */
  function SplitLiteralDot(s: string): seq<string> {
    if '.' !in s then [s] else TrimTrailingEmpty(DotPieces(s))
  }

  /** A path: the segments joined with dots. */
  function JoinDot(segments: seq<string>): string
    requires segments != []
  {
    if |segments| == 1 then segments[0] else segments[0] + "." + JoinDot(segments[1..])
  }

  /** A piece without dots is its own single piece. */
  lemma {:induction false} DotPiecesOfPlain(x: string)
    requires '.' !in x
    ensures DotPieces(x) == [x]
  {
    if x != [] {
      assert x[0] in x;
      DotPiecesOfPlain(x[1..]);
      assert [x[0]] + x[1..] == x;
    }
  }

  /** The text before the first dot is the first piece. */
  lemma {:induction false} DotPiecesCons(x: string, y: string)
    requires '.' !in x
    ensures DotPieces(x + "." + y) == [x] + DotPieces(y)
  {
    if x == [] {
      assert x + "." + y == ['.'] + y;
      assert (['.'] + y)[1..] == y;
    } else {
      assert (x + "." + y)[1..] == x[1..] + "." + y;
      DotPiecesCons(x[1..], y);
      assert [x[0]] + x[1..] == x;
    }
  }

  /** Cutting a joined path yields its pieces. */
  lemma {:induction false} DotPiecesOfJoin(segments: seq<string>)
    requires segments != []
    requires forall k :: 0 <= k < |segments| ==> '.' !in segments[k]
    ensures DotPieces(JoinDot(segments)) == segments
  {
    if |segments| == 1 {
      DotPiecesOfPlain(segments[0]);
    } else {
      DotPiecesCons(segments[0], JoinDot(segments[1..]));
      DotPiecesOfJoin(segments[1..]);
    }
  }

  /** Splitting on a literal dot undoes the join of non-empty, dot-free
      segments: the path a key spells out is the path walked. */
  lemma SplitLiteralDotOfJoin(segments: seq<string>)
    requires segments != []
    requires forall k :: 0 <= k < |segments| ==> segments[k] != "" && '.' !in segments[k]
    ensures SplitLiteralDot(JoinDot(segments)) == segments
  {
    DotPiecesOfJoin(segments);
    if |segments| > 1 {
      assert JoinDot(segments)[|segments[0]|] == '.';
    }
  }

  // ---------------------------------------------------------------------------
  // accessor names

  /** `substring(0, 1).toUpperCase()` for one character; only the ASCII
      letters are mapped. */
  function UpperAscii(c: char): (r: char)
    ensures 'a' <= c <= 'z' ==> r as int == c as int - 32
    ensures !('a' <= c <= 'z') ==> r == c
  {
    if 'a' <= c <= 'z' then (c as int - 32) as char else c
  }

  /** `prefix + name.substring(0, 1).toUpperCase() + name.substring(1)`;
      `substring(0, 1)` of the empty string throws. */
  function AccessorName(prefix: string, name: string): Result<string> {
    if name == "" then Err(StringIndexOutOfBounds)
    else Ok(prefix + [UpperAscii(name[0])] + name[1..])
  }

  /** An accessor name starts with the prefix and is exactly as much longer
      than the field name as the prefix is long (three for `get`/`set`);
      only the empty field name fails. */
  lemma AccessorNameSpec(prefix: string, name: string)
    ensures AccessorName(prefix, name).Err? <==> name == ""
    ensures AccessorName(prefix, name).Err? ==> AccessorName(prefix, name).error == StringIndexOutOfBounds
    ensures AccessorName(prefix, name).Ok? ==>
      |AccessorName(prefix, name).value| == |prefix| + |name| && AccessorName(prefix, name).value[..|prefix|] == prefix
  {
  }

  /** Two field names get the same accessor exactly when they agree after
      the first character and their first characters capitalise alike
      (`aB` and `AB` both give `getAB`). */
  lemma AccessorNameCollides(prefix: string, x: string, y: string)
    requires x != "" && y != ""
    ensures AccessorName(prefix, x) == AccessorName(prefix, y) <==> UpperAscii(x[0]) == UpperAscii(y[0]) && x[1..] == y[1..]
  {
    var a, b := prefix + [UpperAscii(x[0])] + x[1..], prefix + [UpperAscii(y[0])] + y[1..];
    if a == b {
      assert a[|prefix|] == UpperAscii(x[0]) && b[|prefix|] == UpperAscii(y[0]);
      assert a[|prefix| + 1..] == x[1..] && b[|prefix| + 1..] == y[1..];
    }
  }

  // ---------------------------------------------------------------------------
  // the `$$` delimiter of configuration descriptors

  /** The first index `i >= from` where `$$` starts and is not preceded by a
      backslash, or -1. */
  function FindUnescapedSign(s: string, from: nat): (r: int)
    decreases |s| - from
    ensures r == -1 || (from <= r && r + 1 < |s|)
  {
    if from + 1 >= |s| then -1
    else if s[from] == '$' && s[from + 1] == '$' && (from == 0 || s[from - 1] != '\\') then from
    else FindUnescapedSign(s, from + 1)
  }

  predicate UnescapedSignAt(s: string, i: int) {
    0 <= i && i + 1 < |s| && s[i] == '$' && s[i + 1] == '$' && (i == 0 || s[i - 1] != '\\')
  }

  lemma {:induction false} FindUnescapedSignSpec(s: string, from: nat)
    ensures var r := FindUnescapedSign(s, from);
      (r == -1 <==> forall i :: from <= i < |s| ==> !UnescapedSignAt(s, i)) &&
      (r != -1 ==> UnescapedSignAt(s, r) && forall i :: from <= i < r ==> !UnescapedSignAt(s, i))
    decreases |s| - from
  {
    if from + 1 < |s| && !UnescapedSignAt(s, from) {
      FindUnescapedSignSpec(s, from + 1);
    }
  }

  /** `StringRegexUtils.checkIsContain(s, "$$")`: the index of the first `$$`
      that is not escaped as `\$$`, or -1. */
  function CheckIsContain(s: string): (r: int)
    ensures r == -1 || (0 <= r && r + 1 < |s|)
  {
    FindUnescapedSign(s, 0)
  }

  /** -1 exactly when no unescaped `$$` occurs; otherwise the first one. */
  lemma CheckIsContainSpec(s: string)
    ensures var r := CheckIsContain(s);
      (r == -1 <==> forall i :: 0 <= i < |s| ==> !UnescapedSignAt(s, i)) &&
      (r != -1 ==> UnescapedSignAt(s, r) && forall i :: 0 <= i < r ==> !UnescapedSignAt(s, i))
  {
    FindUnescapedSignSpec(s, 0);
  }

  /** `s.replace("\\$$", "$$")`: every literal `\$$`, left to right, loses its
      backslash. */
  function Unescape(s: string): (r: string)
    ensures |r| <= |s|
  {
    if |s| >= 3 && s[0] == '\\' && s[1] == '$' && s[2] == '$' then "$$" + Unescape(s[3..])
    else if s == [] then []
    else [s[0]] + Unescape(s[1..])
  }

  /** Escaping for descriptor text: a backslash before every `$$`. */
  function Escape(s: string): (r: string)
    ensures |r| >= |s|
  {
    if |s| >= 2 && s[0] == '$' && s[1] == '$' then "\\$$" + Escape(s[2..])
    else if s == [] then []
    else [s[0]] + Escape(s[1..])
  }

  lemma {:induction false} EscapeHead(s: string)
    requires s != []
    ensures Escape(s) != []
    ensures s[0] == '$' && !(|s| >= 2 && s[1] == '$') ==> Escape(s)[0] == '$' && (|Escape(s)| >= 2 ==> Escape(s)[1] != '$')
    ensures s[0] != '$' ==> Escape(s)[0] == s[0]
    ensures s[0] == '$' && |s| >= 2 && s[1] == '$' ==> Escape(s)[0] == '\\'
  {
    if s[0] == '$' && !(|s| >= 2 && s[1] == '$') && |s| >= 2 {
      assert Escape(s) == [s[0]] + Escape(s[1..]);
      EscapeHead(s[1..]);
    }
  }

  /** Unescaping undoes escaping: `replace("\\$$", "$$")` recovers any text
      written with a backslash before each `$$`. */
  lemma {:induction false} UnescapeEscape(s: string)
    ensures Unescape(Escape(s)) == s
  {
    if s == [] {
    } else if |s| >= 2 && s[0] == '$' && s[1] == '$' {
      var e := Escape(s[2..]);
      assert Escape(s) == "\\$$" + e;
      assert ("\\$$" + e)[3..] == e;
      UnescapeEscape(s[2..]);
    } else {
      var e := Escape(s[1..]);
      assert Escape(s) == [s[0]] + e;
      assert ([s[0]] + e)[1..] == e;
      if s[0] == '\\' && |s| >= 3 && s[1] == '$' {
        // s[1..] starts with a single `$`: its escape does not start with `$$`
        EscapeHead(s[1..]);
      } else if s[0] == '\\' && |s| >= 2 {
        EscapeHead(s[1..]);
      }
      UnescapeEscape(s[1..]);
    }
  }

  /** Text without the three-character sequence `\$$` is left alone. */
  lemma {:induction false} UnescapeIdentity(s: string)
    requires forall i :: 0 <= i && i + 2 < |s| ==> !(s[i] == '\\' && s[i + 1] == '$' && s[i + 2] == '$')
    ensures Unescape(s) == s
  {
    if s != [] {
      UnescapeIdentity(s[1..]);
    }
  }

  /** `StringRegexUtils.getOrDefault(value, default)`: the value unless it is
      empty. */
  function GetOrDefault(value: string, default: string): (r: string)
    ensures value != "" ==> r == value
    ensures value == "" ==> r == default
  {
    if value == "" then default else value
  }
}
