/** Lines, words and separators of a text file. */
module Text {
  import opened Sequences

  /** Unicode white space. */
  predicate IsSpace(c: char) {
    var u := c as int;
    9 <= u <= 13 || u == 32 || u == 0x85 || u == 0xa0 || u == 0x1680 || 0x2000 <= u <= 0x200a ||
    u == 0x2028 || u == 0x2029 || u == 0x202f || u == 0x205f || u == 0x3000
  }

  predicate NoSpace(s: string) {
    forall i :: 0 <= i < |s| ==> !IsSpace(s[i])
  }

  function TrimStart(s: string): string {
    if s != [] && IsSpace(s[0]) then TrimStart(s[1..]) else s
  }

  function TrimEnd(s: string): string {
    if s != [] && IsSpace(s[|s| - 1]) then TrimEnd(s[..|s| - 1]) else s
  }

  /** A carriage return before the newline is white space too, and goes with the rest. */
  function Trim(s: string): string {
    TrimEnd(TrimStart(s))
  }

  /** The length of the first stretch of `s` without `c`. */
  function Until(s: string, c: char): (n: nat)
    ensures n <= |s| && c !in s[..n] && (n < |s| ==> s[n] == c)
  {
    if s == [] || s[0] == c then 0
    else
      var n := Until(s[1..], c);
      assert s[..1 + n] == [s[0]] + s[1..][..n];
      1 + n
  }

  function Lines(s: string): seq<string> {
    if s == [] then []
    else
      var n := Until(s, '\n');
      if n == |s| then [s] else [s[..n]] + Lines(s[n + 1..])
  }

  function Split(s: string, c: char): (r: seq<string>)
    ensures |r| > 0
  {
    var n := Until(s, c);
    if n == |s| then [s] else [s[..n]] + Split(s[n + 1..], c)
  }

  function WordLen(s: string): (n: nat)
    ensures n <= |s|
  {
    if s == [] || IsSpace(s[0]) then 0 else 1 + WordLen(s[1..])
  }

  function Words(s: string): seq<string> {
    if s == [] then []
    else if IsSpace(s[0]) then Words(s[1..])
    else [s[..WordLen(s)]] + Words(s[WordLen(s)..])
  }

  // ---- appending ----

  lemma {:induction false} UntilFound(a: string, c: char, b: string)
    requires c !in a
    ensures Until(a + [c] + b, c) == |a|
    decreases |a|
  {
    Assoc(a, [c], b);
    if a != [] {
      assert (a + [c] + b)[0] == a[0] && a[0] in a;
      assert (a + [c] + b)[1..] == a[1..] + [c] + b;
      UntilFound(a[1..], c, b);
    } else {
      assert ([] + [c] + b)[0] == c;
    }
  }

  lemma UntilMissing(a: string, c: char)
    requires c !in a
    ensures Until(a, c) == |a|
  {
  }

  lemma LineFirst(line: string, rest: string)
    requires '\n' !in line
    ensures Lines(line + ['\n'] + rest) == [line] + Lines(rest)
  {
    var s := line + ['\n'] + rest;
    UntilFound(line, '\n', rest);
    assert s[..|line|] == line && s[|line| + 1..] == rest;
  }

  predicate Terminated(s: string) {
    s == [] || s[|s| - 1] == '\n'
  }

  /** Text appended after a final newline leaves the lines before it as they are. */
  lemma {:induction false} LinesAppend(a: string, b: string)
    requires Terminated(a)
    ensures Lines(a + b) == Lines(a) + Lines(b)
    decreases |a|
  {
    if a == [] {
      Unit(b);
      Unit(Lines(b));
    } else {
      var n := Until(a, '\n');
      var line, rest := a[..n], a[n + 1..];
      Around(a, n);
      LineFirst(line, rest);
      LineFirst(line, rest + b);
      Assoc(line + ['\n'], rest, b);
      LinesAppend(rest, b);
      Assoc([line], Lines(rest), Lines(b));
    }
  }

  lemma {:induction false} WordLenOf(w: string, rest: string)
    requires NoSpace(w) && (rest == [] || IsSpace(rest[0]))
    ensures WordLen(w + rest) == |w|
    decreases |w|
  {
    if w == [] {
      Unit(rest);
    } else {
      DropWithin(w, rest, 1);
      WordLenOf(w[1..], rest);
    }
  }

  lemma WordFirst(w: string, rest: string)
    requires w != [] && NoSpace(w) && (rest == [] || IsSpace(rest[0]))
    ensures Words(w + rest) == [w] + Words(rest)
  {
    WordLenOf(w, rest);
    DropWithin(w, rest, |w|);
    Whole(w);
    Unit(rest);
  }

  /** A space or a tab ends a word. */
  lemma BlankSeparates(word: string, blank: char, rest: string)
    requires word != [] && NoSpace(word) && (blank == ' ' || blank == '\t')
    ensures Words(word + ([blank] + rest)) == [word] + Words(rest)
  {
    WordFirst(word, [blank] + rest);
    DropWithin([blank], rest, 1);
  }

  /** Words joined by single spaces. */
  function Join(word: string, rest: string): string {
    word + (" " + rest)
  }

  lemma JoinWords(word: string, rest: string)
    requires word != [] && NoSpace(word)
    ensures Words(Join(word, rest)) == [word] + Words(rest)
  {
    BlankSeparates(word, ' ', rest);
  }

  lemma OneWord(word: string)
    requires word != [] && NoSpace(word)
    ensures Words(word) == [word]
  {
    WordFirst(word, []);
    Unit(word);
  }

  lemma JoinNoNewline(word: string, rest: string)
    requires '\n' !in word && '\n' !in rest
    ensures '\n' !in Join(word, rest)
  {
  }

  /** A line that neither starts nor ends with white space is left alone by trimming. */
  lemma JoinTrim(word: string, rest: string)
    requires word != [] && NoSpace(word) && rest != [] && !IsSpace(rest[|rest| - 1])
    ensures Trim(Join(word, rest)) == Join(word, rest)
  {
    var s := Join(word, rest);
    assert s[0] == word[0] && s[|s| - 1] == rest[|rest| - 1];
  }

  // ---- words of concatenations ----

  predicate EndsInSpace(s: string) {
    s == [] || IsSpace(s[|s| - 1])
  }

  /** After white space the words of what follows are words of their own. */
  lemma {:induction false} WordsAppend(a: string, b: string)
    requires EndsInSpace(a)
    ensures Words(a + b) == Words(a) + Words(b)
    decreases |a|
  {
    if a == [] {
      Unit(b);
      Unit(Words(b));
    } else if IsSpace(a[0]) {
      DropWithin(a, b, 1);
      WordsAppend(a[1..], b);
    } else {
      var n := WordLen(a);
      WordLenStops(a);
      DropWithin(a, b, n);
      SplitAt(a, n);
      WordLenOf(a[..n], a[n..] + b);
      Assoc(a[..n], a[n..], b);
      WordsAppend(a[n..], b);
      Assoc([a[..n]], Words(a[n..]), Words(b));
    }
  }

  /** A word ends where white space starts. */
  lemma {:induction false} WordLenStops(a: string)
    ensures NoSpace(a[..WordLen(a)])
    ensures WordLen(a) < |a| ==> IsSpace(a[WordLen(a)])
    ensures a != [] && EndsInSpace(a) ==> WordLen(a) < |a|
  {
    if a != [] && !IsSpace(a[0]) {
      WordLenStops(a[1..]);
    }
  }

  /** The last word of a text that does not end in white space, and the text before it. */
  lemma {:induction false} LastWord(a: string) returns (front: string, word: string)
    requires !EndsInSpace(a)
    ensures a == front + word && EndsInSpace(front) && word != [] && NoSpace(word)
    decreases |a|
  {
    var n := |a| - 1;
    Snoc(a);
    if EndsInSpace(a[..n]) {
      front, word := a[..n], [a[n]];
    } else {
      var rest;
      front, rest := LastWord(a[..n]);
      word := rest + [a[n]];
      Assoc(front, rest, [a[n]]);
    }
  }

  lemma WordsOfLastWord(front: string, word: string)
    requires EndsInSpace(front) && word != [] && NoSpace(word)
    ensures Words(front + word) == Words(front) + [word]
  {
    WordsAppend(front, word);
    OneWord(word);
  }

  /** What is appended to a word without white space in between becomes part of it. */
  lemma WordsGlued(front: string, word: string, more: string, rest: string)
    requires EndsInSpace(front) && word != [] && NoSpace(word) && NoSpace(more)
    requires rest == [] || IsSpace(rest[0])
    ensures Words(front + word + (more + rest)) == Words(front) + ([word + more] + Words(rest))
  {
    Assoc(front, word, more + rest);
    Assoc(word, more, rest);
    WordsAppend(front, word + more + rest);
    WordFirst(word + more, rest);
  }

  lemma WordsBeforeSpace(s: string, c: char)
    requires IsSpace(c)
    ensures Words(s + [c]) == Words(s)
  {
    var space := [c];
    assert space[1..] == [] && Words(space) == [];
    if EndsInSpace(s) {
      WordsAppend(s, space);
    } else {
      var front, word := LastWord(s);
      WordsGlued(front, word, [], space);
      Unit(space);
      Unit(word);
      WordsOfLastWord(front, word);
    }
  }

  lemma {:induction false} WordsTrimStart(s: string)
    ensures Words(TrimStart(s)) == Words(s)
  {
    if s != [] && IsSpace(s[0]) {
      WordsTrimStart(s[1..]);
    }
  }

  lemma {:induction false} WordsTrimEnd(s: string)
    ensures Words(TrimEnd(s)) == Words(s)
  {
    if s != [] && IsSpace(s[|s| - 1]) {
      WordsTrimEnd(s[..|s| - 1]);
      WordsBeforeSpace(s[..|s| - 1], s[|s| - 1]);
      Snoc(s);
    }
  }

  /** Trimming changes no word. */
  lemma WordsTrim(s: string)
    ensures Words(Trim(s)) == Words(s)
  {
    WordsTrimStart(s);
    WordsTrimEnd(TrimStart(s));
  }

  lemma {:induction false} TrimStartStarts(s: string)
    ensures TrimStart(s) != [] ==> !IsSpace(TrimStart(s)[0])
  {
    if s != [] && IsSpace(s[0]) {
      TrimStartStarts(s[1..]);
    }
  }

  lemma {:induction false} TrimEndStarts(s: string)
    requires s != [] ==> !IsSpace(s[0])
    ensures TrimEnd(s) == [] <==> s == []
    ensures s != [] ==> TrimEnd(s)[0] == s[0]
    decreases |s|
  {
    if s != [] && IsSpace(s[|s| - 1]) {
      TrimEndStarts(s[..|s| - 1]);
    }
  }

  /** A trimmed text starts with its first word, if it has any. */
  lemma TrimStarts(s: string)
    ensures Trim(s) == [] <==> Words(s) == []
    ensures Trim(s) != [] ==> Words(s)[0] != [] && Words(s)[0][0] == Trim(s)[0]
  {
    WordsTrim(s);
    TrimStartStarts(s);
    TrimEndStarts(TrimStart(s));
    var t := Trim(s);
    if t != [] {
      assert WordLen(t) > 0 && t[..WordLen(t)][0] == t[0];
    }
  }
}
