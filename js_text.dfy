/**
 * The JavaScript string built-ins the port tool relies on, stated over `string`
 * (a sequence of code points): `trim`, `includes`, `split` by one character,
 * `split(/\s+/)` after `trim`, `Array.prototype.join` and `Array.prototype.filter`
 * with an `includes` test.
 */
module JsText {

  /** The ECMAScript WhiteSpace and LineTerminator code points, which `trim` removes and `\s` matches. */
  predicate IsSpace(c: char) {
    c == ' ' || c == '\t' || c == '\n' || c == '\r' || c == '\U{000B}' || c == '\U{000C}'
    || c == '\U{00A0}' || c == '\U{1680}' || ('\U{2000}' <= c <= '\U{200A}')
    || c == '\U{2028}' || c == '\U{2029}' || c == '\U{202F}' || c == '\U{205F}'
    || c == '\U{3000}' || c == '\U{FEFF}'
  }

  predicate NoSpace(s: string) {
    forall i :: 0 <= i < |s| ==> !IsSpace(s[i])
  }

  predicate AllSpace(s: string) {
    forall i :: 0 <= i < |s| ==> IsSpace(s[i])
  }

  /** `s.trimStart()`: the suffix left after dropping the leading white space. */
  function TrimStart(s: string): (r: string)
    ensures |r| <= |s| && r == s[|s| - |r|..]
    ensures forall i :: 0 <= i < |s| - |r| ==> IsSpace(s[i])
    ensures r == [] || !IsSpace(r[0])
    decreases |s|
  {
    if s != [] && IsSpace(s[0]) then TrimStart(s[1..]) else s
  }

  /** `s.trimEnd()`: the prefix left after dropping the trailing white space. */
  function TrimEnd(s: string): (r: string)
    ensures |r| <= |s| && r == s[..|r|]
    ensures forall i :: |r| <= i < |s| ==> IsSpace(s[i])
    ensures r == [] || !IsSpace(r[|r| - 1])
    decreases |s|
  {
    if s != [] && IsSpace(s[|s| - 1]) then TrimEnd(s[..|s| - 1]) else s
  }

  /** `s.trim()`: empty exactly when `s` is all white space, otherwise it starts and ends with a non-space. */
  function Trim(s: string): (r: string)
    ensures r == [] <==> AllSpace(s)
    ensures r != [] ==> !IsSpace(r[0]) && !IsSpace(r[|r| - 1])
    ensures |r| <= |s|
  {
    var t := TrimStart(s);
    TrimStartEmpty(s);
    TrimEndKeepsHead(t);
    var r := TrimEnd(t);
    assert t == [] ==> r == [];
    assert |r| <= |t| <= |s|;
    r
  }

  /** Trimming the end of text that starts with a non-space keeps that first character. */
  lemma TrimEndKeepsHead(t: string)
    ensures t != [] && !IsSpace(t[0]) ==> TrimEnd(t) != [] && TrimEnd(t)[0] == t[0]
  {
    if t != [] && !IsSpace(t[0]) {
      var r := TrimEnd(t);
      assert !IsSpace(t[0]);
      assert |r| > 0;
      assert r[0] == t[..|r|][0];
    }
  }

  /** `s.includes(sub)`. */
  predicate Contains(s: string, sub: string)
    decreases |s|
  {
    (|sub| <= |s| && s[..|sub|] == sub) || (s != [] && Contains(s[1..], sub))
  }

  /** `sub` occurs in `s` starting at position `i`. */
  predicate OccursAt(s: string, sub: string, i: int) {
    0 <= i && i + |sub| <= |s| && s[i..i + |sub|] == sub
  }

  /** `s.includes(sub)` holds exactly when `sub` occurs at some position of `s`. */
  lemma {:induction false} ContainsIff(s: string, sub: string)
    ensures Contains(s, sub) <==> exists i :: OccursAt(s, sub, i)
    decreases |s|
  {
    if Contains(s, sub) {
      if |sub| <= |s| && s[..|sub|] == sub {
        assert OccursAt(s, sub, 0);
      } else {
        ContainsIff(s[1..], sub);
        var i :| OccursAt(s[1..], sub, i);
        assert s[1..][i..i + |sub|] == s[i + 1..i + 1 + |sub|];
        assert OccursAt(s, sub, i + 1);
      }
    }
    if exists i :: OccursAt(s, sub, i) {
      var i :| OccursAt(s, sub, i);
      if i > 0 {
        assert s[1..][i - 1..i - 1 + |sub|] == s[i..i + |sub|];
        assert OccursAt(s[1..], sub, i - 1);
        ContainsIff(s[1..], sub);
      } else {
        assert s[..|sub|] == sub;
      }
    }
  }

  /** `parts.join(sep)`. */
  function Join(parts: seq<string>, sep: string): string
    decreases |parts|
  {
    if |parts| == 0 then ""
    else if |parts| == 1 then parts[0]
    else parts[0] + sep + Join(parts[1..], sep)
  }

  /** `s.split(sep)` for a one-character separator: at least one piece, and no piece holds `sep`. */
  function Split(s: string, sep: char): (r: seq<string>)
    ensures |r| >= 1
    ensures forall i :: 0 <= i < |r| ==> sep !in r[i]
    decreases |s|
  {
    if s == [] then [""]
    else
      var rest := Split(s[1..], sep);
      if s[0] == sep then [""] + rest else [[s[0]] + rest[0]] + rest[1..]
  }

  /** The last element, as `pop()` returns it. */
  function Last<T>(xs: seq<T>): T
    requires |xs| >= 1
  {
    xs[|xs| - 1]
  }

  /** Joining the pieces of a split with the separator gives the string back. */
  lemma {:induction false} JoinSplit(s: string, sep: char)
    ensures Join(Split(s, sep), [sep]) == s
    decreases |s|
  {
    if s != [] {
      var rest := Split(s[1..], sep);
      JoinSplit(s[1..], sep);
      if s[0] == sep {
        assert Join([""] + rest, [sep]) == "" + [sep] + Join(rest, [sep]);
      } else if |rest| == 1 {
        assert Split(s, sep) == [[s[0]] + rest[0]];
      } else {
        var r := Split(s, sep);
        assert r[1..] == rest[1..];
        assert Join(rest, [sep]) == rest[0] + [sep] + Join(rest[1..], [sep]);
      }
    }
  }

  /** Splitting `w + rest`, where `w` holds no separator, glues `w` onto the first piece of `rest`. */
  lemma {:induction false} SplitPrefix(w: string, rest: string, sep: char)
    requires sep !in w
    ensures Split(w + rest, sep) == [w + Split(rest, sep)[0]] + Split(rest, sep)[1..]
    decreases |w|
  {
    if w != [] {
      assert (w + rest)[1..] == w[1..] + rest;
      SplitPrefix(w[1..], rest, sep);
      assert [w[0]] + (w[1..] + Split(rest, sep)[0]) == w + Split(rest, sep)[0];
    } else {
      var r := Split(rest, sep);
      assert w + rest == rest;
      assert w + r[0] == r[0];
      assert r == [r[0]] + r[1..];
    }
  }

  /** The last piece of a split is whatever follows the last separator. */
  lemma {:induction false} SplitLastPiece(head: string, tail: string, sep: char)
    requires sep !in tail
    ensures |Split(head + [sep] + tail, sep)| >= 2
    ensures Last(Split(head + [sep] + tail, sep)) == tail
    decreases |head|
  {
    if head == [] {
      assert head + [sep] + tail == [sep] + tail;
      assert ([sep] + tail)[1..] == tail;
      SplitPrefix(tail, "", sep);
      assert tail + "" == tail;
    } else {
      var s := head + [sep] + tail;
      assert s[1..] == head[1..] + [sep] + tail;
      SplitLastPiece(head[1..], tail, sep);
      SplitKeepsLast(s, sep);
    }
  }

  /** Dropping the first character of a string that splits in two or more keeps the last piece. */
  lemma SplitKeepsLast(s: string, sep: char)
    requires s != [] && |Split(s[1..], sep)| >= 2
    ensures |Split(s, sep)| >= 2 && Last(Split(s, sep)) == Last(Split(s[1..], sep))
  {
    var rest := Split(s[1..], sep);
    if s[0] == sep {
      assert Split(s, sep) == [""] + rest;
    } else {
      assert Split(s, sep) == [[s[0]] + rest[0]] + rest[1..];
    }
  }

  /** Splitting the join of separator-free pieces gives the pieces back. */
  lemma {:induction false} SplitJoin(parts: seq<string>, sep: char)
    requires |parts| >= 1
    requires forall i :: 0 <= i < |parts| ==> sep !in parts[i]
    ensures Split(Join(parts, [sep]), sep) == parts
    decreases |parts|
  {
    if |parts| == 1 {
      SplitPrefix(parts[0], "", sep);
      assert parts[0] + "" == parts[0];
    } else {
      var tail := Join(parts[1..], [sep]);
      SplitJoin(parts[1..], sep);
      assert Join(parts, [sep]) == parts[0] + ([sep] + tail);
      SplitPrefix(parts[0], [sep] + tail, sep);
      assert ([sep] + tail)[1..] == tail;
      assert Split([sep] + tail, sep) == [""] + parts[1..];
      assert parts[0] + "" == parts[0];
    }
  }

  /** The longest prefix free of white space. */
  function WordPrefix(s: string): (w: string)
    ensures |w| <= |s| && w == s[..|w|] && NoSpace(w)
    ensures |w| == |s| || IsSpace(s[|w|])
    ensures s != [] && !IsSpace(s[0]) ==> |w| >= 1
    decreases |s|
  {
    if s == [] || IsSpace(s[0]) then [] else [s[0]] + WordPrefix(s[1..])
  }

  /** Dropping the leading white space leaves nothing exactly when the string is all white space. */
  lemma TrimStartEmpty(s: string)
    ensures TrimStart(s) == [] <==> AllSpace(s)
  {
    var t := TrimStart(s);
    if t != [] {
      assert s[|s| - |t|] == t[0];
    }
  }

  /** The maximal runs of non-space characters of `s`, in order. */
  function Words(s: string): (r: seq<string>)
    ensures !AllSpace(s) ==> |r| >= 1
    decreases |s|, 1
  {
    TrimStartEmpty(s);
    WordRuns(TrimStart(s))
  }

  /** The words of a string that does not start with white space. */
  function WordRuns(t: string): (r: seq<string>)
    requires t == [] || !IsSpace(t[0])
    ensures t != [] ==> |r| >= 1
    decreases |t|, 0
  {
    if t == [] then []
    else
      var w := WordPrefix(t);
      assert |w| >= 1;
      [w] + Words(t[|w|..])
  }

  /** Every word is non-empty and free of white space. */
  lemma {:induction false} WordsAreWords(s: string)
    ensures IsWordList(Words(s))
    decreases |s|, 1
  {
    WordRunsAreWords(TrimStart(s));
  }

  lemma {:induction false} WordRunsAreWords(t: string)
    requires t == [] || !IsSpace(t[0])
    ensures IsWordList(WordRuns(t))
    decreases |t|, 0
  {
    if t != [] {
      var w := WordPrefix(t);
      var rest := Words(t[|w|..]);
      WordsAreWords(t[|w|..]);
      ConsWordList(w, rest);
    }
  }

  lemma ConsWordList(w: string, rest: seq<string>)
    requires w != [] && NoSpace(w) && IsWordList(rest)
    ensures IsWordList([w] + rest)
  {
    forall i | 0 <= i < |[w] + rest| ensures ([w] + rest)[i] != [] && NoSpace(([w] + rest)[i]) {
      if i > 0 { assert ([w] + rest)[i] == rest[i - 1]; }
    }
  }

  /** `s.trim().split(/\s+/)`: `[""]` for a blank string, its words otherwise. */
  function Fields(s: string): (r: seq<string>)
    ensures |r| >= 1
    ensures AllSpace(s) ==> r == [""]
    ensures !AllSpace(s) ==> IsWordList(r)
  {
    var t := Trim(s);
    if t == [] then [""] else WordsAreWords(t); Words(t)
  }

  lemma {:induction false} WordPrefixOf(w: string, tail: string)
    requires NoSpace(w)
    requires tail == [] || IsSpace(tail[0])
    ensures WordPrefix(w + tail) == w
    decreases |w|
  {
    if w != [] {
      assert (w + tail)[1..] == w[1..] + tail;
      WordPrefixOf(w[1..], tail);
    } else {
      assert w + tail == tail;
    }
  }

  predicate IsWordList(ws: seq<string>) {
    forall i :: 0 <= i < |ws| ==> ws[i] != [] && NoSpace(ws[i])
  }

  /** A word followed by white space or nothing is the first word. */
  lemma WordsCons(w: string, tail: string)
    requires w != [] && NoSpace(w)
    requires tail == [] || IsSpace(tail[0])
    ensures Words(w + tail) == [w] + Words(tail)
  {
    var s := w + tail;
    assert s[0] == w[0];
    assert TrimStart(s) == s;
    WordPrefixOf(w, tail);
    assert s[|w|..] == tail;
  }

  /** A leading white-space character does not change the words. */
  lemma WordsAfterSpace(c: char, t: string)
    requires IsSpace(c)
    ensures Words([c] + t) == Words(t)
  {
    var s := [c] + t;
    assert s[0] == c && s[1..] == t;
    assert TrimStart(s) == TrimStart(t);
  }

  /** The words of a single-space join of words are those words. */
  lemma {:induction false} WordsJoin(ws: seq<string>)
    requires IsWordList(ws)
    ensures Words(Join(ws, " ")) == ws
    decreases |ws|
  {
    if |ws| == 1 {
      WordsCons(ws[0], "");
      assert ws[0] + "" == ws[0];
    } else if |ws| > 1 {
      WordsJoin(ws[1..]);
      WordsJoinStep(ws);
    }
  }

  lemma WordsJoinStep(ws: seq<string>)
    requires IsWordList(ws) && |ws| > 1
    requires Words(Join(ws[1..], " ")) == ws[1..]
    ensures Words(Join(ws, " ")) == ws
  {
    var tail := Join(ws[1..], " ");
    var spaced := " " + tail;
    assert Join(ws, " ") == ws[0] + spaced;
    assert spaced[0] == ' ';
    WordsCons(ws[0], spaced);
    WordsAfterSpace(' ', tail);
    assert Words(spaced) == ws[1..];
    assert ws == [ws[0]] + ws[1..];
  }

  lemma {:induction false} JoinStartsWithWord(ws: seq<string>)
    requires IsWordList(ws) && |ws| >= 1
    ensures Join(ws, " ") != [] && Join(ws, " ")[0] == ws[0][0]
    ensures !IsSpace(Join(ws, " ")[|Join(ws, " ")| - 1])
    decreases |ws|
  {
    if |ws| > 1 {
      JoinStartsWithWord(ws[1..]);
    }
  }

  /** Splitting a single-space join of words on white space, after trimming, gives the words back. */
  lemma FieldsJoin(ws: seq<string>)
    requires IsWordList(ws) && |ws| >= 1
    ensures Fields(Join(ws, " ")) == ws
  {
    var s := Join(ws, " ");
    JoinStartsWithWord(ws);
    assert TrimStart(s) == s;
    assert TrimEnd(s) == s;
    WordsJoin(ws);
  }

  /** `lines.filter(l => l.includes(needle))`: the matching lines, in their order. */
  function Filter(lines: seq<string>, needle: string): (r: seq<string>)
    ensures |r| <= |lines|
    ensures forall l :: l in r ==> l in lines && Contains(l, needle)
    ensures forall l :: l in lines && Contains(l, needle) ==> l in r
    ensures r != [] ==> exists i :: 0 <= i < |lines| && lines[i] == r[0] && FirstMatch(lines, needle, i)
    decreases |lines|
  {
    if lines == [] then []
    else
      var rest := Filter(lines[1..], needle);
      if Contains(lines[0], needle) then
        assert FirstMatch(lines, needle, 0);
        [lines[0]] + rest
      else
        assert rest != [] ==> exists i :: 0 <= i < |lines| && lines[i] == rest[0] && FirstMatch(lines, needle, i) by {
          if rest != [] {
            var i :| 0 <= i < |lines[1..]| && lines[1..][i] == rest[0] && FirstMatch(lines[1..], needle, i);
            assert lines[i + 1] == rest[0];
            assert FirstMatch(lines, needle, i + 1) by {
              forall j | 0 <= j < i + 1 ensures !Contains(lines[j], needle) {
                if j > 0 { assert lines[j] == lines[1..][j - 1]; }
              }
            }
          }
        }
        rest
  }

  /** Nothing is kept exactly when no line holds the needle. */
  lemma FilterEmptyIff(lines: seq<string>, needle: string)
    ensures Filter(lines, needle) == [] <==> forall i :: 0 <= i < |lines| ==> !Contains(lines[i], needle)
  {
    var r := Filter(lines, needle);
    if r != [] {
      var j :| 0 <= j < |lines| && lines[j] == r[0] && FirstMatch(lines, needle, j);
    } else {
      forall i | 0 <= i < |lines| ensures !Contains(lines[i], needle) {
        assert lines[i] in lines;
      }
    }
  }

  /** Filtering distributes over concatenation: the kept lines keep the input's order. */
  lemma {:induction false} FilterAppend(a: seq<string>, b: seq<string>, needle: string)
    ensures Filter(a + b, needle) == Filter(a, needle) + Filter(b, needle)
    decreases |a|
  {
    if a != [] {
      assert (a + b)[0] == a[0];
      assert (a + b)[1..] == a[1..] + b;
      FilterAppend(a[1..], b, needle);
    } else {
      assert a + b == b;
    }
  }

  /** A single line is kept exactly when it holds the needle. */
  lemma FilterOne(l: string, needle: string)
    ensures Filter([l], needle) == (if Contains(l, needle) then [l] else [])
  {
    assert [l][1..] == [];
  }

  /** Filtering around a kept line `k`: the lines kept before it, then line `k`, then the lines kept after it. */
  lemma FilterAround(lines: seq<string>, needle: string, k: nat)
    requires k < |lines| && Contains(lines[k], needle)
    ensures Filter(lines, needle) == Filter(lines[..k], needle) + [lines[k]] + Filter(lines[k + 1..], needle)
  {
    var before, after := lines[..k], lines[k + 1..];
    assert lines == before + [lines[k]] + after;
    FilterAppend(before + [lines[k]], after, needle);
    FilterAppend(before, [lines[k]], needle);
    FilterOne(lines[k], needle);
  }

  /** A line kept after line `k` comes from a later line. */
  lemma KeptAfter(lines: seq<string>, needle: string, k: nat, j: nat)
    requires k < |lines| && Contains(lines[k], needle)
    requires |Filter(lines[..k], needle)| < j < |Filter(lines, needle)|
    ensures exists i :: k < i < |lines| && lines[i] == Filter(lines, needle)[j]
  {
    FilterAround(lines, needle, k);
    var head, after := Filter(lines[..k], needle) + [lines[k]], lines[k + 1..];
    var fa := Filter(after, needle);
    var x := j - |head|;
    assert Filter(lines, needle)[j] == fa[x];
    KeptIsLine(after, needle, x);
    var i :| 0 <= i < |after| && after[i] == fa[x];
    assert lines[k + 1 + i] == fa[x];
  }

  lemma KeptIsLine(lines: seq<string>, needle: string, x: nat)
    requires x < |Filter(lines, needle)|
    ensures exists i :: 0 <= i < |lines| && lines[i] == Filter(lines, needle)[x]
  {
    assert Filter(lines, needle)[x] in Filter(lines, needle);
  }

  /** Line `i` is the first line of `lines` that holds `needle`. */
  predicate FirstMatch(lines: seq<string>, needle: string, i: nat)
    requires i < |lines|
  {
    Contains(lines[i], needle) && forall j :: 0 <= j < i ==> !Contains(lines[j], needle)
  }
}
