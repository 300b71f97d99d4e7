/**
 * The A1 shell's line handling (shell.c): a line is cut at ';' into
 * one-liners, and each one-liner into space-separated tokens that go to the
 * interpreter.
 *
 * Strings are the characters of a C string, before its terminator; reading
 * at or past the end of one gives the terminator '\0'. The interpreter is a
 * parameter, `interp`, from a token list to its return code.
 */
module Shell {
  import opened Wrappers
  import ShellMemory

  /** Longest line the splitter accepts (the size of the line buffers). */
  const MAX_USER_INPUT: nat := 1000
  /** Size of the token buffer, terminator included. */
  const MAX_TOKEN_SIZE: nat := 200
  /** Entries of parseInput's token array. */
  const MAX_WORDS: nat := 100
  /** Most ';' a line may hold. */
  const MAX_SEPARATORS: nat := 9

  /** The character at i, or the terminator at and past the end. */
  function CharAt(s: string, i: int): char {
    if 0 <= i < |s| then s[i] else '\0'
  }

  /** wordEnding: the characters that end a token. */
  predicate WordEnding(c: char) {
    c == '\0' || c == '\n' || c == ' '
  }

  /** countChar: how often search occurs in input. */
  method CountChar(input: string, search: char) returns (count: nat)
    requires '\0' !in input
    ensures count == multiset(input)[search]
  {
    count := 0;
    var i := 0;
    while CharAt(input, i) != '\0'
      invariant 0 <= i <= |input|
      invariant count == multiset(input[..i])[search]
      decreases |input| - i
    {
      assert input[..i + 1] == input[..i] + [input[i]];
      if input[i] == search {
        count := count + 1;
      }
      i := i + 1;
    }
    assert input[..i] == input;
  }

  // ---------------------------------------------------------------------
  // parseInput.
  // ---------------------------------------------------------------------

  function Min(a: nat, b: nat): nat {
    if a < b then a else b
  }

  /** Where the leading-space skip of parseInput stops, from ix on. */
  function SkipFrom(s: string, ix: nat): (r: nat)
    requires ix <= |s|
    decreases |s| - ix
    ensures ix <= r <= |s|
    ensures forall k :: ix <= k < r ==> s[k] == ' '
    ensures CharAt(s, r) != ' ' || r >= MAX_USER_INPUT
  {
    if CharAt(s, ix) == ' ' && ix < MAX_USER_INPUT then SkipFrom(s, ix + 1) else ix
  }

  /**
   * Where a token that has reached j ends: at a word ending, or at cap,
   * the first index it may no longer take.
   */
  function WordEndFrom(s: string, j: nat, cap: nat): (r: nat)
    requires j <= |s|
    decreases |s| - j
    ensures j <= r <= |s|
    ensures forall k :: j <= k < r ==> !WordEnding(s[k]) && k < cap
    ensures r < cap ==> WordEnding(CharAt(s, r))
    ensures r == j || r <= cap
  {
    if j < cap && !WordEnding(CharAt(s, j)) then WordEndFrom(s, j + 1, cap) else j
  }

  /**
   * The end of the token starting at ix: it runs up to a word ending, the
   * MAX_USER_INPUT bound, or MAX_TOKEN_SIZE - 1 characters.
   */
  function WordEnd(s: string, ix: nat): (r: nat)
    requires ix <= |s|
    ensures ix <= r <= |s| && r - ix <= MAX_TOKEN_SIZE - 1
  {
    WordEndFrom(s, ix, Min(ix + MAX_TOKEN_SIZE - 1, MAX_USER_INPUT))
  }

  /**
   * The tokens parseInput reads from ix on, after the tokens acc already
   * read, with no limit on their number.
   */
  function ScanFrom(s: string, ix: nat, acc: seq<string>): seq<string>
    requires ix <= |s|
    decreases |s| - ix
  {
    if CharAt(s, ix) != '\n' && CharAt(s, ix) != '\0' && ix < MAX_USER_INPUT then
      var e := WordEnd(s, ix);
      if CharAt(s, e) == '\0' then acc + [s[ix..e]] else ScanFrom(s, e + 1, acc + [s[ix..e]])
    else acc
  }

  lemma {:induction false} ScanPrefix(s: string, ix: nat, acc: seq<string>)
    requires ix <= |s|
    ensures |acc| <= |ScanFrom(s, ix, acc)| && ScanFrom(s, ix, acc)[..|acc|] == acc
    decreases |s| - ix
  {
    if CharAt(s, ix) != '\n' && CharAt(s, ix) != '\0' && ix < MAX_USER_INPUT {
      var e := WordEnd(s, ix);
      if CharAt(s, e) != '\0' {
        ScanPrefix(s, e + 1, acc + [s[ix..e]]);
        assert (acc + [s[ix..e]])[..|acc|] == acc;
      }
    }
  }

  /**
   * Every token the scan adds has at most MAX_TOKEN_SIZE - 1 characters and
   * holds no character that ends a word.
   */
  lemma {:induction false} ScanShape(s: string, ix: nat, acc: seq<string>)
    requires ix <= |s|
    ensures var r := ScanFrom(s, ix, acc);
            forall k :: |acc| <= k < |r| ==> TokenShape(r[k])
    decreases |s| - ix
  {
    if CharAt(s, ix) != '\n' && CharAt(s, ix) != '\0' && ix < MAX_USER_INPUT {
      var e := WordEnd(s, ix);
      var token := s[ix..e];
      assert TokenShape(token) by {
        assert forall j :: 0 <= j < |token| ==> token[j] == s[ix + j];
      }
      if CharAt(s, e) != '\0' {
        ScanShape(s, e + 1, acc + [token]);
        ScanPrefix(s, e + 1, acc + [token]);
        assert ScanFrom(s, ix, acc)[|acc|] == (acc + [token])[|acc|];
      }
    }
  }

  /** What a token can be: at most MAX_TOKEN_SIZE - 1 characters, none of which ends a word. */
  ghost predicate TokenShape(t: string) {
    |t| <= MAX_TOKEN_SIZE - 1 && forall j :: 0 <= j < |t| ==> !WordEnding(t[j])
  }

  /** The tokens of a one-liner, with no limit on their number. */
  function Tokens(s: string): seq<string> {
    ScanFrom(s, SkipFrom(s, 0), [])
  }

  /** The tokens parseInput hands on: the first MAX_WORDS of them. */
  function ParsedTokens(s: string): (r: seq<string>)
    ensures |r| <= MAX_WORDS
  {
    Tokens(s)[..Min(|Tokens(s)|, MAX_WORDS)]
  }

  /**
   * The word-extraction loop of parseInput: from start on, copy characters
   * into the token buffer up to a word ending, the MAX_USER_INPUT bound or
   * MAX_TOKEN_SIZE - 1 characters.
   */
  method ReadWord(inp: string, start: nat) returns (tmp: string, ix: nat)
    requires start <= |inp| && start < MAX_USER_INPUT
    ensures ix == WordEnd(inp, start)
    ensures tmp == inp[start..ix]
  {
    ghost var cap := Min(start + MAX_TOKEN_SIZE - 1, MAX_USER_INPUT);
    ix := start;
    tmp := "";
    var wordlen := 0;
    while !WordEnding(CharAt(inp, ix)) && ix < MAX_USER_INPUT && wordlen < MAX_TOKEN_SIZE - 1
      invariant 0 <= wordlen <= MAX_TOKEN_SIZE - 1 && ix == start + wordlen <= |inp|
      invariant tmp == inp[start..ix]
      invariant ix <= cap
      invariant forall k :: start <= k < ix ==> !WordEnding(inp[k])
    {
      assert inp[start..ix + 1] == inp[start..ix] + [inp[ix]];
      tmp := tmp + [inp[ix]];
      ix := ix + 1;
      wordlen := wordlen + 1;
    }
    assert WordEnding(CharAt(inp, ix)) || ix >= cap;
    WordEndIs(inp, start, cap, ix);
  }

  /** The leading-space loop of parseInput: skip spaces, at most up to MAX_USER_INPUT. */
  method SkipSpaces(inp: string) returns (ix: nat)
    ensures ix == SkipFrom(inp, 0)
  {
    ix := 0;
    while CharAt(inp, ix) == ' ' && ix < MAX_USER_INPUT
      invariant 0 <= ix <= |inp|
      invariant SkipFrom(inp, 0) == SkipFrom(inp, ix)
    {
      ix := ix + 1;
    }
  }

  /** words[w] = tmp: the slots before w keep what they held. */
  method StoreWord(words: array<string>, w: nat, tmp: string, ghost acc: seq<string>)
    requires w < words.Length && words[..w] == acc
    modifies words
    ensures words[..w + 1] == acc + [tmp]
  {
    words[w] := tmp;
    assert words[..w + 1] == words[..w] + [tmp];
  }

  /**
   * parseInput: skips leading spaces, then takes tokens up to a newline or
   * the end, and returns what the interpreter returns for them. Tokens go
   * into an array of MAX_WORDS entries, and reading stops once it is full.
   * That stop is the corrected behaviour: the code as written has no bound
   * on the token count and stores past `words[99]` on a line of more than
   * 100 tokens, as `TooManyWords` shows.
   */
  method ParseInput(inp: string, interp: seq<string> -> int) returns (errorCode: int, tokens: seq<string>)
    requires '\0' !in inp
    ensures tokens == ParsedTokens(inp)
    ensures errorCode == interp(tokens)
  {
    var words := new string[MAX_WORDS];
    var ix := SkipSpaces(inp);
    var w := ReadWords(inp, ix, words);
    tokens := words[..w];
    errorCode := interp(tokens);
  }

  /**
   * The token loop of parseInput, from the first non-space character on:
   * each token goes into the next entry of words until the line ends or
   * words is full.
   */
  method ReadWords(inp: string, start: nat, words: array<string>) returns (w: nat)
    requires '\0' !in inp && start == SkipFrom(inp, 0) && words.Length == MAX_WORDS
    modifies words
    ensures w <= MAX_WORDS && words[..w] == ParsedTokens(inp)
  {
    var ix := start;
    w := 0;
    ghost var all := Tokens(inp);
    ghost var acc: seq<string> := [];
    while CharAt(inp, ix) != '\n' && CharAt(inp, ix) != '\0' && ix < MAX_USER_INPUT && w < MAX_WORDS
      invariant 0 <= ix <= |inp| && 0 <= w <= MAX_WORDS
      invariant |acc| == w && words[..w] == acc
      invariant ScanFrom(inp, ix, acc) == all
      decreases |inp| - ix
    {
      var tmp;
      ghost var from := ix;
      tmp, ix := ReadWord(inp, ix);
      ScanOneWord(inp, from, acc, tmp);
      StoreWord(words, w, tmp, acc);
      acc := acc + [tmp];
      w := w + 1;
      if CharAt(inp, ix) == '\0' {
        break;
      }
      ix := ix + 1;
    }
    ScanStops(inp, ix, acc);
  }

  /**
   * Where parseInput's word loop stops, with acc read so far: the end of the
   * line, or MAX_WORDS tokens in hand; acc is then what it hands on.
   */
  lemma ScanStops(s: string, ix: nat, acc: seq<string>)
    requires ix <= |s| && |acc| <= MAX_WORDS
    requires ScanFrom(s, ix, acc) == Tokens(s)
    requires |acc| == MAX_WORDS || CharAt(s, ix) == '\n' || CharAt(s, ix) == '\0' || ix >= MAX_USER_INPUT
    ensures ParsedTokens(s) == acc
  {
    ScanPrefix(s, ix, acc);
  }

  /**
   * A run of characters from j to n that do not end a word and lie before
   * cap, followed by a word ending or by cap, is where the token ends.
   */
  lemma {:induction false} WordEndIs(s: string, j: nat, cap: nat, n: nat)
    requires j <= n <= |s|
    requires forall k :: j <= k < n ==> !WordEnding(s[k])
    requires n <= cap && (WordEnding(CharAt(s, n)) || n == cap)
    ensures WordEndFrom(s, j, cap) == n
    decreases n - j
  {
    if j < n {
      WordEndIs(s, j + 1, cap, n);
    }
  }

  /** A word fit for the line: one to MAX_TOKEN_SIZE - 1 characters, none ending a word. */
  ghost predicate GoodWord(w: string) {
    1 <= |w| && TokenShape(w)
  }

  /** Joining from the front, with a single space. */
  lemma JoinFront(ws: seq<string>)
    requires |ws| >= 1
    ensures ShellMemory.Join(ws, " ") ==
              if |ws| == 1 then ws[0] else ws[0] + " " + ShellMemory.Join(ws[1..], " ")
  {
    if |ws| > 1 {
      assert ws == [ws[0]] + ws[1..];
      ShellMemory.JoinCons(ws[0], ws[1..], " ");
    }
  }

  /**
   * Words fit for the line, joined with single spaces (and optionally a
   * newline after them), give back exactly those words.
   */
  lemma TokensOfWords(ws: seq<string>, newline: bool)
    requires forall k :: 0 <= k < |ws| ==> GoodWord(ws[k])
    requires |ShellMemory.Join(ws, " ")| < MAX_USER_INPUT
    ensures Tokens(ShellMemory.Join(ws, " ") + (if newline then "\n" else "")) == ws
  {
    var e := if newline then "\n" else "";
    var s := ShellMemory.Join(ws, " ") + e;
    if ws != [] {
      JoinFront(ws);
      assert GoodWord(ws[0]);
      assert CharAt(s, 0) == ws[0][0];
    }
    assert SkipFrom(s, 0) == 0;
    var none: string := [];
    assert none + ShellMemory.Join(ws, " ") == ShellMemory.Join(ws, " ");
    ScanWords(none, ws, e, []);
    assert [] + ws == ws;
  }

  /** TokensOfWords, from a prefix p of already-read text and tokens acc on. */
  lemma {:induction false} ScanWords(p: string, ws: seq<string>, e: string, acc: seq<string>)
    requires e == "" || e == "\n"
    requires forall k :: 0 <= k < |ws| ==> GoodWord(ws[k])
    requires |p| + |ShellMemory.Join(ws, " ")| < MAX_USER_INPUT
    ensures ScanFrom(p + ShellMemory.Join(ws, " ") + e, |p|, acc) == acc + ws
    decreases |ws|
  {
    var s := p + ShellMemory.Join(ws, " ") + e;
    if ws == [] {
      assert CharAt(s, |p|) == CharAt(e, 0);
      assert acc + ws == acc;
    } else {
      var w := ws[0];
      var rest := ws[1..];
      assert ws == [w] + rest;
      JoinFront(ws);
      FirstWord(p, w, rest, e, acc, s);
      if rest != [] {
        var p' := p + w + " ";
        var j := ShellMemory.Join(rest, " ");
        AppendAssoc(p, w, " ");
        AppendAssoc(p, w + " ", j);
        assert s == p' + j + e;
        assert forall k :: 0 <= k < |rest| ==> GoodWord(rest[k]) by {
          assert forall k :: 0 <= k < |rest| ==> rest[k] == ws[k + 1];
        }
        ScanWords(p', rest, e, acc + [w]);
        AppendAssoc(acc, [w], rest);
      }
    }
  }

  /**
   * The scan of s = p, w, the rest joined, e takes w first, and then goes on
   * after the space that follows it, if any.
   */
  lemma FirstWord(p: string, w: string, rest: seq<string>, e: string, acc: seq<string>, s: string)
    requires e == "" || e == "\n"
    requires GoodWord(w)
    requires |p| + |w| < MAX_USER_INPUT
    requires s == p + (if rest == [] then w else w + " " + ShellMemory.Join(rest, " ")) + e
    ensures if rest == [] then ScanFrom(s, |p|, acc) == acc + [w]
            else ScanFrom(s, |p|, acc) == ScanFrom(s, |p| + |w| + 1, acc + [w])
  {
    WordAt(p, w, rest, e, s);
    var cap := Min(|p| + MAX_TOKEN_SIZE - 1, MAX_USER_INPUT);
    WordEndIs(s, |p|, cap, |p| + |w|);
    assert s[|p|..|p| + |w|] == w;
    ScanOneWord(s, |p|, acc, w);
    if rest == [] && e == "\n" {
      assert CharAt(s, |p| + |w| + 1) == '\0';
    }
  }

  /** The scan takes the word w at ix, and goes on after it unless the line ends. */
  lemma ScanOneWord(s: string, ix: nat, acc: seq<string>, w: string)
    requires ix <= |s| && CharAt(s, ix) != '\n' && CharAt(s, ix) != '\0' && ix < MAX_USER_INPUT
    requires WordEnd(s, ix) == ix + |w| && s[ix..ix + |w|] == w
    ensures CharAt(s, ix + |w|) == '\0' ==> ScanFrom(s, ix, acc) == acc + [w]
    ensures CharAt(s, ix + |w|) != '\0' ==> ScanFrom(s, ix, acc) == ScanFrom(s, ix + |w| + 1, acc + [w])
  {
  }

  /** Where the word w sits in the line s = p, w, the rest joined, e. */
  lemma WordAt(p: string, w: string, rest: seq<string>, e: string, s: string)
    requires e == "" || e == "\n"
    requires GoodWord(w)
    requires s == p + (if rest == [] then w else w + " " + ShellMemory.Join(rest, " ")) + e
    ensures |p| + |w| <= |s|
    ensures forall k :: |p| <= k < |p| + |w| ==> s[k] == w[k - |p|] && !WordEnding(s[k])
    ensures CharAt(s, |p|) == w[0]
    ensures CharAt(s, |p| + |w|) == (if rest == [] then CharAt(e, 0) else ' ')
    ensures WordEnding(CharAt(s, |p| + |w|))
  {
  }

  /**
   * parseInput as written stores tokens into an array of MAX_WORDS entries
   * without a bound on their count; a line of MAX_WORDS + 1 one-letter
   * words, well inside MAX_USER_INPUT, has one token too many for it.
   */
  lemma TooManyWords()
    ensures var line := ShellMemory.Join(seq(MAX_WORDS + 1, _ => "a"), " ");
            |line| < MAX_USER_INPUT && |Tokens(line)| == MAX_WORDS + 1
  {
    var ws := seq(MAX_WORDS + 1, _ => "a");
    assert forall k :: 0 <= k < |ws| ==> ws[k] == "a";
    assert GoodWord("a");
    JoinLength(ws, 1);
    TokensOfWords(ws, false);
    assert ShellMemory.Join(ws, " ") + "" == ShellMemory.Join(ws, " ");
  }

  /** The length of strings of length n joined with spaces. */
  lemma {:induction false} JoinLength(ws: seq<string>, n: nat)
    requires forall k :: 0 <= k < |ws| ==> |ws[k]| == n
    ensures |ws| > 0 ==> |ShellMemory.Join(ws, " ")| == |ws| * (n + 1) - 1
  {
    if |ws| > 1 {
      JoinLength(ws[..|ws| - 1], n);
    }
  }

  // ---------------------------------------------------------------------
  // convertInputToOneLiners.
  // ---------------------------------------------------------------------

  /** strcspn(s, ";"): the first ';', or |s|. */
  function SeparatorAt(s: string): (r: nat)
    ensures r <= |s|
    ensures forall k :: 0 <= k < r ==> s[k] != ';'
    ensures r < |s| ==> s[r] == ';'
  {
    if |s| == 0 || s[0] == ';' then 0 else 1 + SeparatorAt(s[1..])
  }

  /** The one-liners of a line: the pieces between its ';'s. */
  function Segments(s: string): (r: seq<string>)
    decreases |s|
    ensures |r| >= 1
  {
    var k := SeparatorAt(s);
    if k == |s| then [s] else [s[..k]] + Segments(s[k + 1..])
  }

  /** A line has one more one-liner than it has ';'. */
  lemma {:induction false} SegmentsCount(s: string)
    ensures |Segments(s)| == multiset(s)[';'] + 1
    decreases |s|
  {
    var k := SeparatorAt(s);
    if k == |s| {
      assert ';' !in multiset(s);
    } else {
      SegmentsCount(s[k + 1..]);
      assert s == s[..k] + [s[k]] + s[k + 1..];
      assert ';' !in multiset(s[..k]);
    }
  }

  /** Joining the one-liners with ';' gives the line back. */
  lemma {:induction false} SegmentsJoin(s: string)
    ensures ShellMemory.Join(Segments(s), ";") == s
    decreases |s|
  {
    var k := SeparatorAt(s);
    if k < |s| {
      SegmentsJoin(s[k + 1..]);
      ShellMemory.JoinCons(s[..k], Segments(s[k + 1..]), ";");
      assert s == s[..k] + ";" + s[k + 1..];
    }
  }

  /** How a line ends: a return code, or the shell exiting with a status. */
  datatype LineOutcome = Returned(code: int) | Exited(status: int)

  /** The token lists handed to the interpreter, and whether it made the shell exit. */
  datatype Run = Run(calls: seq<seq<string>>, exited: bool)

  /**
   * The one-liners parsed in order; a -1 from the interpreter makes the
   * shell exit, and nothing after it is parsed.
   */
  function RunSegments(segs: seq<string>, interp: seq<string> -> int): (r: Run)
    ensures |r.calls| <= |segs|
  {
    if segs == [] then Run([], false)
    else
      var t := ParsedTokens(segs[0]);
      if interp(t) == -1 then Run([t], true)
      else
        var rest := RunSegments(segs[1..], interp);
        Run([t] + rest.calls, rest.exited)
  }

  /** The k-th call of a run is the k-th one-liner's tokens. */
  lemma {:induction false} RunSegmentsCalls(segs: seq<string>, interp: seq<string> -> int)
    ensures var r := RunSegments(segs, interp);
            forall k :: 0 <= k < |r.calls| ==> r.calls[k] == ParsedTokens(segs[k])
    decreases |segs|
  {
    if segs != [] && interp(ParsedTokens(segs[0])) != -1 {
      RunSegmentsCalls(segs[1..], interp);
      var rest := RunSegments(segs[1..], interp);
      assert forall k :: 1 <= k < |segs| ==> segs[1..][k - 1] == segs[k];
      assert forall k :: 1 <= k < 1 + |rest.calls| ==> ([ParsedTokens(segs[0])] + rest.calls)[k] == rest.calls[k - 1];
    }
  }

  /**
   * The shell exits exactly when some one-liner makes the interpreter
   * answer -1; otherwise every one-liner is parsed.
   */
  lemma {:induction false} RunSegmentsExit(segs: seq<string>, interp: seq<string> -> int)
    ensures var r := RunSegments(segs, interp);
            (r.exited <==> exists k :: 0 <= k < |segs| && interp(ParsedTokens(segs[k])) == -1) &&
            (!r.exited ==> |r.calls| == |segs|)
    decreases |segs|
  {
    if segs != [] {
      var t := ParsedTokens(segs[0]);
      if interp(t) != -1 {
        RunSegmentsExit(segs[1..], interp);
        var rest := RunSegments(segs[1..], interp);
        if rest.exited {
          var j :| 0 <= j < |segs[1..]| && interp(ParsedTokens(segs[1..][j])) == -1;
          assert segs[1..][j] == segs[j + 1];
        } else {
          forall k | 0 <= k < |segs|
            ensures interp(ParsedTokens(segs[k])) != -1
          {
            if k > 0 {
              assert segs[k] == segs[1..][k - 1];
            }
          }
        }
      }
    }
  }

  /** Running one one-liner in front of others. */
  lemma RunSegmentsCons(seg: string, segs: seq<string>, interp: seq<string> -> int)
    ensures var t := ParsedTokens(seg);
            var rest := RunSegments(segs, interp);
            RunSegments([seg] + segs, interp) ==
              if interp(t) == -1 then Run([t], true) else Run([t] + rest.calls, rest.exited)
  {
    assert ([seg] + segs)[0] == seg;
    assert ([seg] + segs)[1..] == segs;
  }

  /** A line that holds a ';': its first one-liner, then the one-liners of the rest. */
  lemma SegmentsStep(s: string, k: nat)
    requires k == SeparatorAt(s) < |s|
    ensures Segments(s) == [s[..k]] + Segments(s[k + 1..])
  {
  }

  lemma RunSegmentsStep(s: string, k: nat, t: seq<string>, interp: seq<string> -> int)
    requires k == SeparatorAt(s) < |s|
    requires t == ParsedTokens(s[..k])
    ensures var r := RunSegments(Segments(s), interp);
            var rest := RunSegments(Segments(s[k + 1..]), interp);
            if interp(t) == -1 then r == Run([t], true)
            else r.calls == [t] + rest.calls && r.exited == rest.exited
  {
    SegmentsStep(s, k);
    RunSegmentsCons(s[..k], Segments(s[k + 1..]), interp);
  }

  /** Running a line with no ';': one parse. */
  lemma RunSegmentsLast(s: string, interp: seq<string> -> int)
    requires SeparatorAt(s) == |s|
    ensures var t := ParsedTokens(s);
            RunSegments(Segments(s), interp) == Run([t], interp(t) == -1)
  {
    assert Segments(s) == [s];
    assert Segments(s)[1..] == [];
  }

  /** The pieces either side of a ';' hold no NUL when the line holds none. */
  lemma NoNulAround(s: string, k: nat)
    requires '\0' !in s && k < |s|
    ensures '\0' !in s[..k] && '\0' !in s[k + 1..]
  {
    assert forall i :: 0 <= i < k ==> s[..k][i] == s[i];
    assert forall i :: k + 1 <= i < |s| ==> s[k + 1..][i - k - 1] == s[i];
  }

  /**
   * convertInputToOneLiners: 1 for a line longer than MAX_USER_INPUT, 2 for
   * more than MAX_SEPARATORS ';', with nothing parsed in either case;
   * otherwise every one-liner, in order, goes through parseInput, and the
   * answer is 0 unless the interpreter answered -1, when the shell exits
   * with status 99.
   */
  method ConvertInputToOneLiners(input: string, interp: seq<string> -> int) returns (r: LineOutcome, calls: seq<seq<string>>)
    requires '\0' !in input
    ensures |input| > MAX_USER_INPUT ==> r == Returned(1) && calls == []
    ensures |input| <= MAX_USER_INPUT && multiset(input)[';'] > MAX_SEPARATORS ==> r == Returned(2) && calls == []
    ensures |input| <= MAX_USER_INPUT && multiset(input)[';'] <= MAX_SEPARATORS ==>
              var run := RunSegments(Segments(input), interp);
              calls == run.calls && r == (if run.exited then Exited(99) else Returned(0))
  {
    calls := [];
    if |input| > MAX_USER_INPUT {
      return Returned(1), calls;
    }
    var count := CountChar(input, ';');
    if count > MAX_SEPARATORS {
      return Returned(2), calls;
    }
    ghost var whole := RunSegments(Segments(input), interp);
    ghost var pending := whole;
    var start := input;
    while SeparatorAt(start) < |start|
      invariant '\0' !in start
      invariant pending == RunSegments(Segments(start), interp)
      invariant whole.exited == pending.exited
      invariant whole.calls == calls + pending.calls
      decreases |start|
    {
      var k := SeparatorAt(start);
      var temp := start[..k];
      NoNulAround(start, k);
      ghost var rest := RunSegments(Segments(start[k + 1..]), interp);
      var errorCode, tokens := ParseInput(temp, interp);
      RunSegmentsStep(start, k, tokens, interp);
      AppendAssoc(calls, [tokens], rest.calls);
      calls := calls + [tokens];
      if errorCode == -1 {
        return Exited(99), calls;
      }
      start := start[k + 1..];
      pending := rest;
    }
    RunSegmentsLast(start, interp);
    var errorCode, tokens := ParseInput(start, interp);
    calls := calls + [tokens];
    if errorCode == -1 {
      return Exited(99), calls;
    }
    return Returned(0), calls;
  }

  /**
   * With an interpreter that never answers -1, every one-liner of a line
   * is parsed: multiset(input)[';'] + 1 times, and the shell does not exit.
   */
  lemma EverySegmentParsed(input: string, interp: seq<string> -> int)
    requires forall t :: interp(t) != -1
    ensures |RunSegments(Segments(input), interp).calls| == multiset(input)[';'] + 1
    ensures !RunSegments(Segments(input), interp).exited
  {
    SegmentsCount(input);
    RunSegmentsExit(Segments(input), interp);
  }
}
