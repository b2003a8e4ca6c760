/**
 * The functions of Go's `strings` and `bufio` packages that the ZFS driver
 * applies to command output and to the kernel's filesystem listing, as pure
 * functions over `seq<char>`: strings.FieldsFunc, strings.Fields,
 * strings.TrimSuffix, strings.TrimSpace and the line splitting of a
 * bufio.Scanner with its default split function.
 */
module GoStrings {

  /** The ASCII white space of Go's `unicode.IsSpace`: space, \t, \n, \v, \f, \r. */
  predicate IsSpace(c: char) {
    c == ' ' || c == '\t' || c == '\n' || c == '\U{0B}' || c == '\U{0C}' || c == '\r'
  }

  /** The separator the mount-point parse in `Init` splits on. */
  predicate IsTab(c: char) {
    c == '\t'
  }

  predicate IsNewline(c: char) {
    c == '\n'
  }

  /** No character of `s` is a separator. */
  predicate NoneIn(s: string, isSep: char -> bool) {
    forall k :: 0 <= k < |s| ==> !isSep(s[k])
  }

  /** Every character of `s` is a separator. */
  predicate AllIn(s: string, isSep: char -> bool) {
    forall k :: 0 <= k < |s| ==> isSep(s[k])
  }

  /** The longest prefix of `s` that holds no separator. */
  function LeadingRun(s: string, isSep: char -> bool): (w: string)
    ensures |w| <= |s| && w == s[..|w|]
    ensures NoneIn(w, isSep)
    ensures |w| < |s| ==> isSep(s[|w|])
  {
    if s == [] || isSep(s[0]) then [] else [s[0]] + LeadingRun(s[1..], isSep)
  }

  /** The longest separator-free prefix does not look past the first separator. */
  lemma {:induction false} LeadingRunStopsAt(a: string, c: char, b: string, isSep: char -> bool)
    requires isSep(c)
    ensures LeadingRun(a + [c] + b, isSep) == LeadingRun(a, isSep)
    decreases |a|
  {
    var s := a + [c] + b;
    if a == [] {
    } else if isSep(a[0]) {
    } else {
      assert s[0] == a[0] && s[1..] == a[1..] + [c] + b;
      LeadingRunStopsAt(a[1..], c, b, isSep);
    }
  }

  /** A separator-free word followed by separators (or nothing) is its own leading run. */
  lemma {:induction false} LeadingRunOfWord(m: string, q: string, isSep: char -> bool)
    requires NoneIn(m, isSep)
    requires q == [] || isSep(q[0])
    ensures LeadingRun(m + q, isSep) == m
    decreases |m|
  {
    if m != [] {
      assert (m + q)[0] == m[0] && (m + q)[1..] == m[1..] + q;
      LeadingRunOfWord(m[1..], q, isSep);
    }
  }

  /**
   * strings.FieldsFunc: the maximal runs of characters that are not separators,
   * in order. Every field is non-empty and separator-free, and there is no field
   * exactly when the text is made of separators only.
   */
  function FieldsFunc(s: string, isSep: char -> bool): (fields: seq<string>)
    ensures forall i :: 0 <= i < |fields| ==> fields[i] != [] && NoneIn(fields[i], isSep)
    ensures fields == [] <==> AllIn(s, isSep)
    decreases |s|
  {
    if s == [] then []
    else if isSep(s[0]) then
      assert AllIn(s, isSep) <==> AllIn(s[1..], isSep) by {
        assert forall k :: 1 <= k < |s| ==> s[k] == s[1..][k - 1];
      }
      FieldsFunc(s[1..], isSep)
    else
      var w := LeadingRun(s, isSep);
      [w] + FieldsFunc(s[|w|..], isSep)
  }

  /** strings.Fields, with the ASCII white-space set. */
  function Fields(s: string): (words: seq<string>)
    ensures forall i :: 0 <= i < |words| ==> words[i] != [] && NoneIn(words[i], IsSpace)
    ensures words == [] <==> AllIn(s, IsSpace)
  {
    FieldsFunc(s, IsSpace)
  }

  /**
   * Splitting law: a separator cuts the text into two parts whose fields are
   * found independently, so separators never contribute empty fields.
   */
  lemma {:induction false} FieldsFuncSplit(a: string, c: char, b: string, isSep: char -> bool)
    requires isSep(c)
    ensures FieldsFunc(a + [c] + b, isSep) == FieldsFunc(a, isSep) + FieldsFunc(b, isSep)
    decreases |a|
  {
    var s := a + [c] + b;
    if a == [] {
      assert s[1..] == b;
    } else if isSep(a[0]) {
      assert s[0] == a[0] && s[1..] == a[1..] + [c] + b;
      FieldsFuncSplit(a[1..], c, b, isSep);
    } else {
      assert s[0] == a[0];
      LeadingRunStopsAt(a, c, b, isSep);
      var w := LeadingRun(a, isSep);
      assert s[|w|..] == a[|w|..] + [c] + b;
      FieldsFuncSplit(a[|w|..], c, b, isSep);
      assert FieldsFunc(a, isSep) == [w] + FieldsFunc(a[|w|..], isSep);
    }
  }

  /** A non-empty separator-free word, with separators after it, is the one field. */
  lemma {:induction false} FieldsFuncOfWord(m: string, q: string, isSep: char -> bool)
    requires m != [] && NoneIn(m, isSep) && AllIn(q, isSep)
    ensures FieldsFunc(m + q, isSep) == [m]
  {
    var s := m + q;
    assert s[0] == m[0];
    LeadingRunOfWord(m, q, isSep);
    assert s[|m|..] == q;
  }

  /** Two words with one separator between them are two fields. */
  lemma FieldsFuncTwoWords(w1: string, c: char, w2: string, isSep: char -> bool)
    requires w1 != [] && NoneIn(w1, isSep) && w2 != [] && NoneIn(w2, isSep) && isSep(c)
    ensures FieldsFunc(w1 + [c] + w2, isSep) == [w1, w2]
  {
    FieldsFuncSplit(w1, c, w2, isSep);
    assert w1 + [] == w1 && w2 + [] == w2;
    FieldsFuncOfWord(w1, [], isSep);
    FieldsFuncOfWord(w2, [], isSep);
  }

  /**
   * The last field is the last maximal run: if the text ends with a non-empty
   * separator-free run `m` that starts the text or follows a separator, and
   * then only separators, the fields are those before it followed by `m`.
   */
  lemma {:induction false} LastField(p: string, m: string, q: string, isSep: char -> bool)
    requires p == [] || isSep(p[|p| - 1])
    requires m != [] && NoneIn(m, isSep) && AllIn(q, isSep)
    ensures FieldsFunc(p + m + q, isSep) == FieldsFunc(p, isSep) + [m]
  {
    var t := m + q;
    FieldsFuncOfWord(m, q, isSep);
    if p == [] {
      assert p + m + q == t;
    } else {
      var p' := p[..|p| - 1];
      var c := p[|p| - 1];
      assert p == p' + [c] + [];
      assert p + m + q == p' + [c] + t;
      FieldsFuncSplit(p', c, t, isSep);
      FieldsFuncSplit(p', c, [], isSep);
      assert FieldsFunc(p', isSep) + FieldsFunc([], isSep) == FieldsFunc(p', isSep);
    }
  }

  /** The characters of `s` that are not separators, in order. */
  function Strip(s: string, isSep: char -> bool): (r: string)
    ensures NoneIn(r, isSep)
  {
    if s == [] then [] else (if isSep(s[0]) then [] else [s[0]]) + Strip(s[1..], isSep)
  }

  lemma {:induction false} StripAppend(a: string, b: string, isSep: char -> bool)
    ensures Strip(a + b, isSep) == Strip(a, isSep) + Strip(b, isSep)
    decreases |a|
  {
    if a == [] {
      assert a + b == b;
    } else {
      assert (a + b)[0] == a[0] && (a + b)[1..] == a[1..] + b;
      StripAppend(a[1..], b, isSep);
    }
  }

  lemma {:induction false} StripWord(w: string, isSep: char -> bool)
    requires NoneIn(w, isSep)
    ensures Strip(w, isSep) == w
    decreases |w|
  {
    if w != [] {
      StripWord(w[1..], isSep);
      assert w == [w[0]] + w[1..];
    }
  }

  /** The concatenation of a sequence of strings. */
  function Concat(ss: seq<string>): string {
    if ss == [] then [] else ss[0] + Concat(ss[1..])
  }

  /** Splitting loses no character but the separators: the fields concatenate to the text without them. */
  lemma {:induction false} FieldsFuncContents(s: string, isSep: char -> bool)
    ensures Concat(FieldsFunc(s, isSep)) == Strip(s, isSep)
    decreases |s|
  {
    if s == [] {
    } else if isSep(s[0]) {
      FieldsFuncContents(s[1..], isSep);
    } else {
      var w := LeadingRun(s, isSep);
      var fs := FieldsFunc(s, isSep);
      assert fs == [w] + FieldsFunc(s[|w|..], isSep);
      assert fs[1..] == FieldsFunc(s[|w|..], isSep);
      FieldsFuncContents(s[|w|..], isSep);
      assert s == w + s[|w|..];
      StripAppend(w, s[|w|..], isSep);
      StripWord(w, isSep);
    }
  }

  /**
   * strings.TrimSuffix: `s` without `suffix` when `s` ends with it (removed
   * once), otherwise `s` unchanged.
   */
  function TrimSuffix(s: string, suffix: string): (r: string)
    ensures |suffix| <= |s| && s[|s| - |suffix|..] == suffix ==> r + suffix == s
    ensures !(|suffix| <= |s| && s[|s| - |suffix|..] == suffix) ==> r == s
  {
    if |suffix| <= |s| && s[|s| - |suffix|..] == suffix then s[..|s| - |suffix|] else s
  }

  /** `s` starts and ends with a character that is not white space (or is empty). */
  predicate Trimmed(s: string) {
    s == [] || (!IsSpace(s[0]) && !IsSpace(s[|s| - 1]))
  }

  /** strings.TrimLeft with unicode.IsSpace: the suffix after the leading white space. */
  function TrimLeftSpace(s: string): (r: string)
    ensures |r| <= |s| && r == s[|s| - |r|..]
    ensures AllIn(s[..|s| - |r|], IsSpace)
    ensures r == [] || !IsSpace(r[0])
  {
    if s != [] && IsSpace(s[0]) then
      var r := TrimLeftSpace(s[1..]);
      assert forall k :: 1 <= k < |s| - |r| ==> s[k] == s[1..][k - 1];
      r
    else s
  }

  /** strings.TrimRight with unicode.IsSpace: the prefix before the trailing white space. */
  function TrimRightSpace(s: string): (r: string)
    ensures |r| <= |s| && r == s[..|r|]
    ensures AllIn(s[|r|..], IsSpace)
    ensures r == [] || !IsSpace(r[|r| - 1])
  {
    if s != [] && IsSpace(s[|s| - 1]) then
      var r := TrimRightSpace(s[..|s| - 1]);
      assert forall k :: |r| <= k < |s| - 1 ==> s[k] == s[..|s| - 1][k];
      r
    else s
  }

  /**
   * strings.TrimSpace: the infix `s[i..j]` that remains when all leading and
   * all trailing white space is cut off.
   */
  function TrimSpace(s: string): (r: string)
    ensures Trimmed(r)
    ensures exists i :: (0 <= i <= |s| - |r| && r == s[i..i + |r|]
                         && AllIn(s[..i], IsSpace) && AllIn(s[i + |r|..], IsSpace))
  {
    var l := TrimLeftSpace(s);
    var r := TrimRightSpace(l);
    var i := |s| - |l|;
    assert r == s[i..i + |r|];
    assert AllIn(s[..i], IsSpace);
    assert s[i + |r|..] == l[|r|..];
    assert AllIn(s[i + |r|..], IsSpace);
    r
  }

  /** Trimming is idempotent: trimmed text has nothing left to trim. */
  lemma TrimSpaceIdempotent(s: string)
    ensures TrimSpace(TrimSpace(s)) == TrimSpace(s)
  {
  }

  /** The text of `s` is all white space exactly when trimming leaves nothing. */
  lemma TrimSpaceEmpty(s: string)
    ensures TrimSpace(s) == [] <==> AllIn(s, IsSpace)
  {
    var r := TrimSpace(s);
    var i :| 0 <= i <= |s| - |r| && r == s[i..i + |r|]
      && AllIn(s[..i], IsSpace) && AllIn(s[i + |r|..], IsSpace);
    if r == [] {
      assert forall k :: 0 <= k < |s| ==> (k < i ==> s[k] == s[..i][k]) && (i <= k ==> s[k] == s[i..][k - i]);
    }
  }

  /** bufio.dropCR: one trailing carriage return removed. */
  function DropCR(line: string): string {
    if line != [] && line[|line| - 1] == '\r' then line[..|line| - 1] else line
  }

  /**
   * The tokens of a bufio.Scanner with its default split function ScanLines:
   * the text between newlines with one trailing carriage return dropped; a
   * final line without a newline is a token only when it is non-empty.
   */
  function ScanLines(s: string): (lines: seq<string>)
    ensures forall i :: 0 <= i < |lines| ==> NoneIn(lines[i], IsNewline)
    ensures s == [] <==> lines == []
    decreases |s|
  {
    if s == [] then []
    else
      var line := LeadingRun(s, IsNewline);
      [DropCR(line)] + (if |line| == |s| then [] else ScanLines(s[|line| + 1..]))
  }

  /** A newline-terminated line is the first token; scanning resumes after it. */
  lemma ScanLinesFirst(line: string, rest: string)
    requires NoneIn(line, IsNewline)
    ensures ScanLines(line + "\n" + rest) == [DropCR(line)] + ScanLines(rest)
  {
    var s := line + "\n" + rest;
    LeadingRunOfWord(line, "\n" + rest, IsNewline);
    assert s == line + ("\n" + rest);
    assert s[|line| + 1..] == rest;
  }
}
