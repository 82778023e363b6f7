/** The parts of Python's string handling that the batch reader and writer
    use: `str.strip()`, `str.split()` with no separator and `' '.join`. */
module Text {

  /** The ASCII characters for which Python's `str.isspace` holds. */
  predicate IsSpace(c: char)
  {
    c == ' ' || (9 <= c as int <= 13) || (28 <= c as int <= 31)
  }

  predicate NoSpace(w: string)
  {
    forall i :: 0 <= i < |w| ==> !IsSpace(w[i])
  }

  /** The number of whitespace characters `s` starts with. */
  function Indent(s: string): (i: nat)
    ensures i <= |s| && forall k :: 0 <= k < i ==> IsSpace(s[k])
    ensures i < |s| ==> !IsSpace(s[i])
  {
    if s != [] && IsSpace(s[0]) then 1 + Indent(s[1..]) else 0
  }

  /** The number of whitespace characters `s` ends with. */
  function Trail(s: string): (t: nat)
    ensures t <= |s| && forall k :: |s| - t <= k < |s| ==> IsSpace(s[k])
    ensures t < |s| ==> !IsSpace(s[|s| - 1 - t])
  {
    if s != [] && IsSpace(s[|s| - 1]) then 1 + Trail(s[..|s| - 1]) else 0
  }

  /** `str.strip()`: the part of `s` after its leading whitespace, up to a
      whitespace suffix, beginning and ending with a non-whitespace
      character. */
  function Strip(s: string): (r: string)
    ensures Indent(s) + |r| <= |s| && r == s[Indent(s)..Indent(s) + |r|]
    ensures forall k :: Indent(s) + |r| <= k < |s| ==> IsSpace(s[k])
    ensures r == [] || (!IsSpace(r[0]) && !IsSpace(r[|r| - 1]))
  {
    var i := Indent(s);
    var t := Trail(s[i..]);
    StripTrail(s, i, t);
    s[i..|s| - t]
  }

  /** What `strip` drops at the end is the whitespace suffix of `s`. */
  lemma StripTrail(s: string, i: nat, t: nat)
    requires i == Indent(s) && t == Trail(s[i..])
    ensures forall k :: |s| - t <= k < |s| ==> IsSpace(s[k])
  {
    forall k | |s| - t <= k < |s| ensures IsSpace(s[k]) {
      var j := k - i;
      assert IsSpace(s[i..][j]);
    }
  }

  /** The longest prefix of `s` free of whitespace. */
  function Word(s: string): (w: string)
    ensures |w| <= |s| && w == s[..|w|] && NoSpace(w)
    ensures |w| < |s| ==> IsSpace(s[|w|])
  {
    if s == [] || IsSpace(s[0]) then [] else [s[0]] + Word(s[1..])
  }

  /** `str.split()`: the maximal runs of non-whitespace characters, in order. */
  function Split(s: string): (words: seq<string>)
    ensures forall k :: 0 <= k < |words| ==> words[k] != [] && NoSpace(words[k])
    ensures words == [] <==> forall i :: 0 <= i < |s| ==> IsSpace(s[i])
    decreases |s|
  {
    if s == [] then []
    else if IsSpace(s[0]) then Split(s[1..])
    else
      var w := Word(s);
      [w] + Split(s[|w|..])
  }

  /** `' '.join(words)`. */
  function Join(words: seq<string>): string
  {
    if words == [] then ""
    else if |words| == 1 then words[0]
    else words[0] + " " + Join(words[1..])
  }

  lemma StripNoSpace(w: string)
    requires NoSpace(w)
    ensures Strip(w) == w
  {
  }

  lemma {:induction false} WordOf(w: string, rest: string)
    requires NoSpace(w)
    requires rest == [] || IsSpace(rest[0])
    ensures Word(w + rest) == w
  {
    if w != [] {
      assert (w + rest)[1..] == w[1..] + rest;
      WordOf(w[1..], rest);
    }
  }

  lemma SplitWord(w: string, rest: string)
    requires w != [] && NoSpace(w)
    requires rest == [] || IsSpace(rest[0])
    ensures Split(w + rest) == [w] + Split(rest)
  {
    WordOf(w, rest);
    assert (w + rest)[|w|..] == rest;
  }

  /** `str.split()` cuts at every whitespace character: what comes before
      it and what comes after are split separately. With `SplitWord` (a
      lone word is itself) and the emptiness clause of `Split`, this fixes
      the words as the maximal runs of non-whitespace, in order. */
  lemma {:induction false} SplitAtSpace(a: string, c: char, b: string)
    requires IsSpace(c)
    ensures Split(a + [c] + b) == Split(a) + Split(b)
    decreases |a|, 1
  {
    if a == [] {
      var rest := [c] + b;
      assert a + [c] + b == rest;
      SplitSpaceHead(rest);
      assert rest[1..] == b;
    } else if IsSpace(a[0]) {
      SplitAfterSpace(a, c, b);
    } else {
      SplitAfterWord(a, c, b);
    }
  }

  lemma {:induction false} SplitAfterSpace(a: string, c: char, b: string)
    requires IsSpace(c) && a != [] && IsSpace(a[0])
    ensures Split(a + [c] + b) == Split(a) + Split(b)
    decreases |a|, 0
  {
    SplitSpaceHead(a);
    SplitSpaceHead(a + [c] + b);
    assert (a + [c] + b)[1..] == a[1..] + [c] + b;
    SplitAtSpace(a[1..], c, b);
  }

  lemma {:induction false} SplitAfterWord(a: string, c: char, b: string)
    requires IsSpace(c) && a != [] && !IsSpace(a[0])
    ensures Split(a + [c] + b) == Split(a) + Split(b)
    decreases |a|, 0
  {
    var w := Word(a);
    var tail := a[|w|..];
    WordBeforeSpace(a, c, b);
    SplitWordHead(a + [c] + b);
    SplitWordHead(a);
    SplitAtSpace(tail, c, b);
  }

  /** The first word of `a` stays the first word when a whitespace
      character and more text follow `a`. */
  lemma WordBeforeSpace(a: string, c: char, b: string)
    requires IsSpace(c)
    ensures Word(a + [c] + b) == Word(a)
    ensures (a + [c] + b)[|Word(a)|..] == a[|Word(a)|..] + [c] + b
  {
    var w := Word(a);
    var tail := a[|w|..];
    var rest := tail + [c] + b;
    assert a + [c] + b == w + rest by {
      assert a == w + tail;
    }
    assert IsSpace(rest[0]) by {
      if tail != [] {
        assert rest[0] == a[|w|];
      }
    }
    WordOf(w, rest);
  }

  lemma SplitSpaceHead(s: string)
    requires s != [] && IsSpace(s[0])
    ensures Split(s) == Split(s[1..])
  {
  }

  lemma SplitWordHead(s: string)
    requires s != [] && !IsSpace(s[0])
    ensures Split(s) == [Word(s)] + Split(s[|Word(s)|..])
  {
  }

  /** `str.split()` undoes `' '.join` on words that are nonempty and hold
      no whitespace. */
  lemma {:induction false} SplitJoin(words: seq<string>)
    requires forall k :: 0 <= k < |words| ==> words[k] != [] && NoSpace(words[k])
    ensures Split(Join(words)) == words
  {
    if |words| == 1 {
      SplitWord(words[0], "");
      assert words[0] + "" == words[0];
    } else if |words| > 1 {
      var rest := " " + Join(words[1..]);
      assert Join(words) == words[0] + rest;
      SplitWord(words[0], rest);
      assert rest[1..] == Join(words[1..]);
      SplitJoin(words[1..]);
      assert [words[0]] + words[1..] == words;
    }
  }

  /** Text made of `lines`, each terminated by a newline, as a file written
      with one `write(line + '\n')` per line. */
  function Unlines(lines: seq<string>): (text: string)
    ensures |text| >= |lines|
  {
    if lines == [] then "" else lines[0] + "\n" + Unlines(lines[1..])
  }

  /** The longest prefix of `s` without a newline. */
  function ToNewline(s: string): (l: string)
    ensures |l| <= |s| && l == s[..|l|] && '\n' !in l
    ensures |l| < |s| ==> s[|l|] == '\n'
  {
    if s == [] || s[0] == '\n' then [] else [s[0]] + ToNewline(s[1..])
  }

  /** The lines of a text as a file object hands them out, without their
      newlines; a last line need not end in a newline. */
  function Lines(text: string): seq<string>
    decreases |text|
  {
    if text == [] then []
    else
      var l := ToNewline(text);
      if |l| == |text| then [l] else [l] + Lines(text[|l| + 1..])
  }

  lemma {:induction false} UnlinesAppend(a: seq<string>, b: seq<string>)
    ensures Unlines(a + b) == Unlines(a) + Unlines(b)
  {
    if a == [] {
      assert a + b == b;
    } else {
      assert (a + b)[1..] == a[1..] + b;
      UnlinesAppend(a[1..], b);
    }
  }

  lemma {:induction false} ToNewlineOf(l: string, rest: string)
    requires '\n' !in l
    ensures ToNewline(l + "\n" + rest) == l
  {
    if l != [] {
      assert (l + "\n" + rest)[1..] == l[1..] + "\n" + rest;
      ToNewlineOf(l[1..], rest);
    }
  }

  /** Reading back text written line by line gives the lines, provided no
      line holds a newline of its own. */
  lemma {:induction false} LinesUnlines(lines: seq<string>)
    requires forall k :: 0 <= k < |lines| ==> '\n' !in lines[k]
    ensures Lines(Unlines(lines)) == lines
  {
    if lines != [] {
      var text := Unlines(lines);
      var rest := Unlines(lines[1..]);
      assert text == lines[0] + "\n" + rest;
      ToNewlineOf(lines[0], rest);
      assert text[|lines[0]| + 1..] == rest;
      LinesUnlines(lines[1..]);
      assert [lines[0]] + lines[1..] == lines;
    }
  }
}
