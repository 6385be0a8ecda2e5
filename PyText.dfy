/** The Python 2 string and list operations the parsers are built from: `find`, slicing,
    `split`, `strip`, `replace(pat, '')`, `count`, `startswith` and `int()`, each with
    the semantics of a Python byte string (Unicode white space is not modelled). */
module PyText {
  import opened Results

  /** The characters `str.split()` and `str.strip()` treat as white space. */
  const Whitespace: set<char> := {' ', '\t', '\n', '\r', '\U{000B}', '\U{000C}'}

  /** `pat` occurs in `s` at offset `k`. */
  ghost predicate MatchAt(s: string, pat: string, k: int) {
    0 <= k && k + |pat| <= |s| && s[k..k + |pat|] == pat
  }

  // ---------------------------------------------------------------- find

  /** The first offset at or after `i` where `pat` occurs, or -1. */
  function FindFrom(s: string, pat: string, i: nat): (r: int)
    ensures r == -1 || (i <= r && MatchAt(s, pat, r))
    ensures forall k :: i <= k && (r == -1 || k < r) ==> !MatchAt(s, pat, k)
    decreases |s| - i
  {
    if i + |pat| > |s| then -1
    else if s[i..i + |pat|] == pat then i
    else FindFrom(s, pat, i + 1)
  }

  /** `s.find(pat, start)`: a negative `start` counts from the end of `s`. */
  function Find(s: string, pat: string, start: int): (r: int)
  {
    FindFrom(s, pat, if start >= 0 then start else if start + |s| >= 0 then start + |s| else 0)
  }

  /** Finding one character: the first offset `k >= i` holding `c`, or -1. */
  lemma FindCharFrom(s: string, c: char, i: nat)
    ensures var r := FindFrom(s, [c], i);
            && (r == -1 || (i <= r < |s| && s[r] == c))
            && (forall k :: i <= k < |s| && (r == -1 || k < r) ==> s[k] != c)
  {
    var r := FindFrom(s, [c], i);
    forall k | i <= k < |s| && (r == -1 || k < r)
      ensures s[k] != c
    {
      assert !MatchAt(s, [c], k);
      assert s[k..k + 1] == [s[k]];
    }
    if r != -1 {
      assert s[r..r + 1] == [c];
    }
  }

  /** If `s[k] == c` and no earlier offset from `i` holds `c`, finding `c` from `i` gives `k`. */
  lemma FindCharAt(s: string, c: char, i: nat, k: nat)
    requires i <= k < |s| && s[k] == c
    requires forall m :: i <= m < k ==> s[m] != c
    ensures FindFrom(s, [c], i) == k
  {
    FindCharFrom(s, c, i);
  }

  /** If no offset from `i` holds `c`, finding `c` from `i` gives -1. */
  lemma FindCharAbsent(s: string, c: char, i: nat)
    requires forall m :: i <= m < |s| ==> s[m] != c
    ensures FindFrom(s, [c], i) == -1
  {
    FindCharFrom(s, c, i);
  }

  /** The offsets at or after `i`, in increasing order, where `pat` occurs, found left to
      right as `find` finds them. */
  function Occurrences(buf: string, pat: string, i: nat): seq<int>
    requires pat != []
    decreases |buf| + 1 - i
  {
    var m := FindFrom(buf, pat, i);
    if m == -1 then [] else [m] + Occurrences(buf, pat, m + 1)
  }

  /** Every offset `find` reports holds `pat`, they increase, and none is missed. */
  lemma OccurrencesFacts(buf: string, pat: string, i: nat)
    requires pat != []
    ensures var occ := Occurrences(buf, pat, i);
            && (forall k :: 0 <= k < |occ| ==> i <= occ[k] && MatchAt(buf, pat, occ[k]))
            && (forall k, l :: 0 <= k < l < |occ| ==> occ[k] < occ[l])
            && (forall m :: i <= m && MatchAt(buf, pat, m) ==> m in occ)
  {
    OccurrencesMatch(buf, pat, i);
    OccurrencesIncrease(buf, pat, i);
    OccurrencesComplete(buf, pat, i);
  }

  lemma {:induction false} OccurrencesMatch(buf: string, pat: string, i: nat)
    requires pat != []
    ensures forall k :: 0 <= k < |Occurrences(buf, pat, i)| ==>
              i <= Occurrences(buf, pat, i)[k] && MatchAt(buf, pat, Occurrences(buf, pat, i)[k])
    decreases |buf| + 1 - i
  {
    var m := FindFrom(buf, pat, i);
    if m != -1 {
      OccurrencesMatch(buf, pat, m + 1);
      var rest := Occurrences(buf, pat, m + 1);
      var occ := Occurrences(buf, pat, i);
      assert occ == [m] + rest;
      forall k | 0 < k < |occ|
        ensures i <= occ[k] && MatchAt(buf, pat, occ[k])
      {
        var x := rest[k - 1];
        assert m + 1 <= x && MatchAt(buf, pat, x);
        assert occ[k] == x;
      }
    }
  }

  lemma {:induction false} OccurrencesIncrease(buf: string, pat: string, i: nat)
    requires pat != []
    ensures forall k :: 0 <= k < |Occurrences(buf, pat, i)| ==> i <= Occurrences(buf, pat, i)[k]
    ensures forall k, l :: 0 <= k < l < |Occurrences(buf, pat, i)| ==>
              Occurrences(buf, pat, i)[k] < Occurrences(buf, pat, i)[l]
    decreases |buf| + 1 - i
  {
    var m := FindFrom(buf, pat, i);
    if m != -1 {
      OccurrencesIncrease(buf, pat, m + 1);
      var rest := Occurrences(buf, pat, m + 1);
      var occ := Occurrences(buf, pat, i);
      assert occ == [m] + rest;
      forall k | 0 <= k < |occ|
        ensures i <= occ[k]
      {
        if k > 0 {
          assert occ[k] == rest[k - 1];
        }
      }
      forall k, l | 0 <= k < l < |occ|
        ensures occ[k] < occ[l]
      {
        assert occ[l] == rest[l - 1];
        if k > 0 {
          assert occ[k] == rest[k - 1];
        }
      }
    }
  }

  lemma OccurrencesComplete(buf: string, pat: string, i: nat)
    requires pat != []
    ensures forall m :: i <= m && MatchAt(buf, pat, m) ==> m in Occurrences(buf, pat, i)
  {
    forall p | i <= p && MatchAt(buf, pat, p)
      ensures p in Occurrences(buf, pat, i)
    {
      OccurrenceFound(buf, pat, i, p);
    }
  }

  lemma {:induction false} OccurrenceFound(buf: string, pat: string, i: nat, p: nat)
    requires pat != [] && i <= p && MatchAt(buf, pat, p)
    ensures p in Occurrences(buf, pat, i)
    decreases |buf| + 1 - i
  {
    var m := FindFrom(buf, pat, i);
    assert m != -1 && m <= p;
    var rest := Occurrences(buf, pat, m + 1);
    assert Occurrences(buf, pat, i) == [m] + rest;
    if p != m {
      OccurrenceFound(buf, pat, m + 1, p);
    }
  }

  lemma OccurrencesUnfold(buf: string, pat: string, i: nat)
    requires pat != []
    ensures Find(buf, pat, i) == -1 ==> Occurrences(buf, pat, i) == []
    ensures Find(buf, pat, i) != -1 ==>
              && i <= Find(buf, pat, i) <= |buf| - |pat|
              && Occurrences(buf, pat, i) == [Find(buf, pat, i)] + Occurrences(buf, pat, Find(buf, pat, i) + 1)
  {
  }

  /** The same search written as the loops in the source run it: `acc` holds what was found
      before `i`. */
  function OccurrencesFrom(buf: string, pat: string, i: nat, acc: seq<int>): seq<int>
    requires pat != []
    decreases |buf| + 1 - i
  {
    var m := FindFrom(buf, pat, i);
    if m == -1 then acc else OccurrencesFrom(buf, pat, m + 1, acc + [m])
  }

  /** One match found: the search goes on after it, with the match appended. */
  lemma OccurrencesFromNext(buf: string, pat: string, i: nat, acc: seq<int>, whole: seq<int>)
    requires pat != [] && FindFrom(buf, pat, i) != -1
    requires OccurrencesFrom(buf, pat, i, acc) == whole
    ensures i <= FindFrom(buf, pat, i) < |buf|
    ensures OccurrencesFrom(buf, pat, FindFrom(buf, pat, i) + 1, acc + [FindFrom(buf, pat, i)]) == whole
  {
  }

  /** No match left: the matches so far are all of them. */
  lemma OccurrencesFromDone(buf: string, pat: string, i: nat, acc: seq<int>, whole: seq<int>)
    requires pat != [] && FindFrom(buf, pat, i) == -1
    requires OccurrencesFrom(buf, pat, i, acc) == whole
    ensures acc == whole
  {
  }

  lemma {:induction false} OccurrencesFromAcc(buf: string, pat: string, i: nat, acc: seq<int>)
    requires pat != []
    ensures OccurrencesFrom(buf, pat, i, acc) == acc + Occurrences(buf, pat, i)
    decreases |buf| + 1 - i
  {
    var m := FindFrom(buf, pat, i);
    if m == -1 {
      assert Occurrences(buf, pat, i) == [];
      AppendNil(acc);
    } else {
      var rest := Occurrences(buf, pat, m + 1);
      assert Occurrences(buf, pat, i) == [m] + rest;
      assert OccurrencesFrom(buf, pat, i, acc) == OccurrencesFrom(buf, pat, m + 1, acc + [m]);
      OccurrencesFromAcc(buf, pat, m + 1, acc + [m]);
      AppendAssoc(acc, [m], rest);
    }
  }

  // ---------------------------------------------------------------- slicing

  /** A slice bound as Python normalises it: negative counts from the end, then clamped. */
  function SliceIndex(i: int, n: nat): (k: nat)
    ensures k <= n
    ensures 0 <= i <= n ==> k == i
  {
    if i < 0 then (if i + n < 0 then 0 else i + n) else if i > n then n else i
  }

  /** `s[lo:hi]` for a Python string or list. */
  function Slice<T>(s: seq<T>, lo: int, hi: int): (r: seq<T>)
    ensures 0 <= lo <= hi <= |s| ==> r == s[lo..hi]
    ensures |r| <= |s|
  {
    var a := SliceIndex(lo, |s|);
    var b := SliceIndex(hi, |s|);
    if a < b then s[a..b] else []
  }

  /** `s[i:]` for a Python string or list. */
  function Drop<T>(s: seq<T>, i: nat): (r: seq<T>)
    ensures i <= |s| ==> r == s[i..]
    ensures i >= |s| ==> r == []
  {
    if i <= |s| then s[i..] else []
  }

  /** `s.startswith(prefix)`, which is also `s[0:len(prefix)] == prefix`. */
  predicate StartsWith(s: string, prefix: string) {
    |prefix| <= |s| && s[..|prefix|] == prefix
  }

  lemma SliceIsPrefix(s: string, prefix: string)
    ensures (Slice(s, 0, |prefix|) == prefix) <==> StartsWith(s, prefix)
  {
  }

  // ---------------------------------------------------------------- split(sep)

  /** `s.split(sep)` for a non-empty separator. */
  function Split(s: string, sep: string): (pieces: seq<string>)
    requires sep != []
    ensures |pieces| >= 1
    decreases |s|
  {
    var k := FindFrom(s, sep, 0);
    if k == -1 then [s] else [s[..k]] + Split(s[k + |sep|..], sep)
  }

  /** `sep.join(pieces)`. */
  function Join(pieces: seq<string>, sep: string): string
    decreases |pieces|
  {
    if |pieces| == 0 then []
    else if |pieces| == 1 then pieces[0]
    else pieces[0] + sep + Join(pieces[1..], sep)
  }

  lemma JoinCons(p: string, tail: seq<string>, sep: string)
    requires |tail| >= 1
    ensures Join([p] + tail, sep) == p + sep + Join(tail, sep)
  {
    assert ([p] + tail)[1..] == tail;
  }

  lemma AroundMatch(s: string, pat: string, k: int)
    requires MatchAt(s, pat, k)
    ensures s == s[..k] + pat + s[k + |pat|..]
  {
    assert s == s[..k] + s[k..k + |pat|] + s[k + |pat|..];
  }

  /** Splitting loses nothing: joining the pieces with the separator gives the text back. */
  lemma {:induction false} SplitJoin(s: string, sep: string)
    requires sep != []
    ensures Join(Split(s, sep), sep) == s
    decreases |s|
  {
    var k := FindFrom(s, sep, 0);
    if k != -1 {
      var head, rest := s[..k], s[k + |sep|..];
      var pieces := Split(rest, sep);
      SplitJoin(rest, sep);
      JoinCons(head, pieces, sep);
      AroundMatch(s, sep, k);
      calc {
        Join(Split(s, sep), sep);
        Join([head] + pieces, sep);
        head + sep + Join(pieces, sep);
        s;
      }
    }
  }

  /** Splitting on a character that none of the pieces holds undoes joining them with it. */
  lemma {:induction false} SplitOfJoin(ws: seq<string>, c: char)
    requires |ws| >= 1 && forall k :: 0 <= k < |ws| ==> c !in ws[k]
    ensures Split(Join(ws, [c]), [c]) == ws
    decreases |ws|
  {
    if |ws| == 1 {
      FindCharAbsent(ws[0], c, 0);
    } else {
      var tail := Join(ws[1..], [c]);
      var s := ws[0] + [c] + tail;
      JoinCons(ws[0], ws[1..], [c]);
      FindCharAt(s, c, 0, |ws[0]|);
      assert s[..|ws[0]|] == ws[0] && s[|ws[0]| + 1..] == tail;
      SplitOfJoin(ws[1..], c);
      assert ws == [ws[0]] + ws[1..];
    }
  }

  /** No piece of a split holds the (one-character) separator. */
  lemma {:induction false} SplitCharPieces(s: string, c: char)
    ensures forall p, m :: p in Split(s, [c]) && 0 <= m < |p| ==> p[m] != c
    decreases |s|
  {
    var k := FindFrom(s, [c], 0);
    FindCharFrom(s, c, 0);
    if k != -1 {
      SplitCharPieces(s[k + 1..], c);
      assert Split(s, [c]) == [s[..k]] + Split(s[k + 1..], [c]);
    }
  }

  // ---------------------------------------------------------------- strip

  function LStrip(s: string, chars: set<char>): (r: string)
    ensures |r| <= |s|
    decreases |s|
  {
    if |s| > 0 && s[0] in chars then LStrip(s[1..], chars) else s
  }

  function RStrip(s: string, chars: set<char>): (r: string)
    ensures |r| <= |s|
    decreases |s|
  {
    if |s| > 0 && s[|s| - 1] in chars then RStrip(s[..|s| - 1], chars) else s
  }

  /** `lstrip` removes a prefix of stripped characters and stops at the first other one. */
  lemma {:induction false} LStripFacts(s: string, chars: set<char>)
    ensures var r := LStrip(s, chars);
            && r == s[|s| - |r|..]
            && (r == [] || r[0] !in chars)
            && (forall k :: 0 <= k < |s| - |r| ==> s[k] in chars)
    decreases |s|
  {
    if |s| > 0 && s[0] in chars {
      LStripFacts(s[1..], chars);
    }
  }

  /** `rstrip` removes a suffix of stripped characters and stops at the last other one. */
  lemma {:induction false} RStripFacts(s: string, chars: set<char>)
    ensures var r := RStrip(s, chars);
            && r == s[..|r|]
            && (r == [] || r[|r| - 1] !in chars)
            && (forall k :: |r| <= k < |s| ==> s[k] in chars)
    decreases |s|
  {
    if |s| > 0 && s[|s| - 1] in chars {
      RStripFacts(s[..|s| - 1], chars);
    }
  }

  /** `s.strip(chars)`. */
  function StripChars(s: string, chars: set<char>): string {
    RStrip(LStrip(s, chars), chars)
  }

  /** `s.strip()`. */
  function Strip(s: string): string {
    StripChars(s, Whitespace)
  }

  /** Stripping leaves nothing exactly when every character is one of those stripped. */
  lemma StripEmpty(s: string, chars: set<char>)
    ensures StripChars(s, chars) == [] <==> forall k :: 0 <= k < |s| ==> s[k] in chars
  {
    var l := LStrip(s, chars);
    LStripFacts(s, chars);
    RStripFacts(l, chars);
    if l != [] {
      assert l[0] == s[|s| - |l|];
    }
  }

  /** Text that starts and ends with a character not stripped is left alone. */
  lemma StripUnpadded(s: string, chars: set<char>)
    requires s != [] ==> s[0] !in chars && s[|s| - 1] !in chars
    ensures StripChars(s, chars) == s
  {
  }

  /** Text with none of the stripped characters at either end is left alone. */
  lemma StripNone(s: string, chars: set<char>)
    requires forall k :: 0 <= k < |s| ==> s[k] !in chars
    ensures StripChars(s, chars) == s
  {
  }

  // ---------------------------------------------------------------- split()

  /** The length of the run of non-white-space characters that starts `s`. */
  function WordLength(s: string): (n: nat)
    ensures n <= |s|
  {
    if |s| == 0 || s[0] in Whitespace then 0 else 1 + WordLength(s[1..])
  }

  /** The word that starts `s` holds no white space and ends at white space or at the end. */
  lemma {:induction false} WordLengthFacts(s: string)
    ensures var n := WordLength(s);
            && (forall k :: 0 <= k < n ==> s[k] !in Whitespace)
            && (n == |s| || s[n] in Whitespace)
  {
    if |s| > 0 && s[0] !in Whitespace {
      WordLengthFacts(s[1..]);
    }
  }

  /** `s.split()`: the maximal runs of non-white-space characters, in order. */
  function Words(s: string): (ws: seq<string>)
    decreases |s|
  {
    if |s| == 0 then []
    else if s[0] in Whitespace then Words(s[1..])
    else
      var n := WordLength(s);
      [s[..n]] + Words(s[n..])
  }

  /** `split()` never yields an empty word. */
  lemma {:induction false} WordsNonEmpty(s: string)
    ensures forall w :: w in Words(s) ==> w != []
    decreases |s|
  {
    if |s| > 0 {
      if s[0] in Whitespace {
        WordsNonEmpty(s[1..]);
      } else {
        WordsNonEmpty(s[WordLength(s)..]);
      }
    }
  }

  /** `s.split()[0]`. */
  function FirstWord(s: string): (r: Result<string>)
    ensures r.Ok? <==> Words(s) != []
  {
    var ws := Words(s);
    if ws == [] then Err(IndexOutOfRange) else Ok(ws[0])
  }

  /** One word between white space splits to itself. */
  lemma {:induction false} WordsOfWord(pre: string, w: string, post: string)
    requires forall k :: 0 <= k < |pre| ==> pre[k] in Whitespace
    requires w != [] && forall k :: 0 <= k < |w| ==> w[k] !in Whitespace
    requires post == [] || post[0] in Whitespace
    ensures Words(pre + w + post) == [w] + Words(post)
    decreases |pre|
  {
    if |pre| > 0 {
      assert (pre + w + post)[1..] == pre[1..] + w + post;
      WordsOfWord(pre[1..], w, post);
    } else {
      var s := w + post;
      assert pre + w + post == s;
      WordLengthOfWord(w, post);
      assert s[..|w|] == w && s[|w|..] == post;
    }
  }

  /** A word followed by white space (or nothing) is the first word. */
  lemma WordsOfLeadingWord(w: string, post: string)
    requires IsWord(w)
    requires post == [] || post[0] in Whitespace
    ensures Words(w + post) == [w] + Words(post)
  {
    WordsOfWord([], w, post);
    assert [] + w + post == w + post;
  }

  /** Two words apart, then a tail that starts with white space (or is empty). */
  lemma WordsOfTwo(w1: string, pad: string, w2: string, tail: string)
    requires IsWord(w1) && IsWord(w2)
    requires pad != [] && forall k :: 0 <= k < |pad| ==> pad[k] in Whitespace
    requires tail == [] || tail[0] in Whitespace
    ensures Words(w1 + pad + w2 + tail) == [w1, w2] + Words(tail)
  {
    var rest := pad + w2 + tail;
    assert rest[0] == pad[0];
    WordsOfLeadingWord(w1, rest);
    WordsOfWord(pad, w2, tail);
    ConcatFour(w1, pad, w2, tail);
    ConsTwo(w1, w2, Words(tail));
  }

  lemma {:induction false} WordLengthOfWord(w: string, post: string)
    requires forall k :: 0 <= k < |w| ==> w[k] !in Whitespace
    requires post == [] || post[0] in Whitespace
    ensures WordLength(w + post) == |w|
    decreases |w|
  {
    if |w| > 0 {
      assert (w + post)[1..] == w[1..] + post;
      WordLengthOfWord(w[1..], post);
    } else {
      assert w + post == post;
    }
  }

  /** A non-empty run of characters none of which is white space. */
  predicate IsWord(w: string) {
    w != [] && forall k :: 0 <= k < |w| ==> w[k] !in Whitespace
  }

  lemma {:induction false} JoinEnds(ws: seq<string>, sep: string)
    requires |ws| > 0 && forall k :: 0 <= k < |ws| ==> ws[k] != []
    ensures var s := Join(ws, sep);
            && |s| > 0 && ws[0] != [] && ws[|ws| - 1] != [] && s[0] == ws[0][0]
            && s[|s| - 1] == ws[|ws| - 1][|ws[|ws| - 1]| - 1]
    decreases |ws|
  {
    if |ws| > 1 {
      JoinCons(ws[0], ws[1..], sep);
      JoinEnds(ws[1..], sep);
    }
  }

  /** Words joined by single spaces strip to themselves and split back into the same words. */
  lemma {:induction false} WordsOfJoin(ws: seq<string>)
    requires forall k :: 0 <= k < |ws| ==> IsWord(ws[k])
    ensures Words(Join(ws, " ")) == ws
    ensures Strip(Join(ws, " ")) == Join(ws, " ")
    decreases |ws|
  {
    if |ws| == 1 {
      WordsOfWord([], ws[0], []);
      assert [] + ws[0] + [] == ws[0];
    } else if |ws| > 1 {
      var tail := Join(ws[1..], " ");
      JoinCons(ws[0], ws[1..], " ");
      WordsOfJoin(ws[1..]);
      WordsOfWord([], ws[0], " " + tail);
      assert [] + ws[0] + (" " + tail) == ws[0] + " " + tail;
      assert (" " + tail)[1..] == tail;
      assert ws == [ws[0]] + ws[1..];
    }
    if |ws| > 0 {
      JoinEnds(ws, " ");
      StripUnpadded(Join(ws, " "), Whitespace);
    }
  }

  // ---------------------------------------------------------------- replace, count

  /** `s.replace(pat, '')`: every occurrence of `pat`, found left to right without overlap,
      is removed. An empty `pat` leaves `s` as it is. */
  function RemoveAll(s: string, pat: string): (r: string)
    ensures |r| <= |s|
    decreases |s|
  {
    if pat == [] then s
    else
      var k := FindFrom(s, pat, 0);
      if k == -1 then s else s[..k] + RemoveAll(s[k + |pat|..], pat)
  }

  /** `s.count(c)` for one character. */
  function Count(s: string, c: char): (n: nat)
    ensures n <= |s|
  {
    if |s| == 0 then 0 else Count(s[..|s| - 1], c) + (if s[|s| - 1] == c then 1 else 0)
  }

  lemma {:induction false} CountAppend(x: string, y: string, c: char)
    ensures Count(x + y, c) == Count(x, c) + Count(y, c)
    decreases |y|
  {
    if |y| == 0 {
      assert x + y == x;
    } else {
      assert (x + y)[..|x + y| - 1] == x + y[..|y| - 1];
      CountAppend(x, y[..|y| - 1], c);
    }
  }

  lemma {:induction false} CountAbsent(s: string, c: char)
    requires forall k :: 0 <= k < |s| ==> s[k] != c
    ensures Count(s, c) == 0
    decreases |s|
  {
    if |s| > 0 {
      CountAbsent(s[..|s| - 1], c);
    }
  }

  /** Removing a character shortens the text by the number of its occurrences, and
      leaves none of it behind. */
  lemma {:induction false} RemoveCharCount(s: string, c: char)
    ensures |RemoveAll(s, [c])| == |s| - Count(s, c)
    ensures forall k :: 0 <= k < |RemoveAll(s, [c])| ==> RemoveAll(s, [c])[k] != c
    decreases |s|
  {
    RemoveCharLength(s, c);
    RemoveCharAbsent(s, c);
  }

  lemma {:induction false} RemoveCharLength(s: string, c: char)
    ensures |RemoveAll(s, [c])| == |s| - Count(s, c)
    decreases |s|
  {
    var k := FindFrom(s, [c], 0);
    FindCharFrom(s, c, 0);
    if k == -1 {
      CountAbsent(s, c);
    } else {
      var rest := s[k + 1..];
      RemoveCharLength(rest, c);
      CountAtFirst(s, c, k);
      assert RemoveAll(s, [c]) == s[..k] + RemoveAll(rest, [c]);
    }
  }

  /** A character that is the first `c` from the start counts once, before the rest. */
  lemma CountAtFirst(s: string, c: char, k: nat)
    requires k < |s| && s[k] == c && forall m :: 0 <= m < k ==> s[m] != c
    ensures Count(s, c) == 1 + Count(s[k + 1..], c)
  {
    assert s == s[..k] + [c] + s[k + 1..];
    CountAppend(s[..k] + [c], s[k + 1..], c);
    CountAppend(s[..k], [c], c);
    CountAbsent(s[..k], c);
    assert Count([c], c) == 1 by {
      assert [c][..0] == [];
    }
  }

  /** Splitting at one character gives one piece more than the character occurs. */
  lemma {:induction false} SplitCount(s: string, c: char)
    ensures |Split(s, [c])| == Count(s, c) + 1
    decreases |s|
  {
    var k := FindFrom(s, [c], 0);
    FindCharFrom(s, c, 0);
    if k == -1 {
      CountAbsent(s, c);
    } else {
      SplitCount(s[k + 1..], c);
      CountAtFirst(s, c, k);
    }
  }

  /** Removing a pattern never adds an occurrence of a character. */
  lemma {:induction false} RemoveAllCount(s: string, pat: string, c: char)
    ensures Count(RemoveAll(s, pat), c) <= Count(s, c)
    decreases |s|
  {
    if pat != [] {
      var k := FindFrom(s, pat, 0);
      if k != -1 {
        var rest := s[k + |pat|..];
        RemoveAllCount(rest, pat, c);
        AroundMatch(s, pat, k);
        CountAppend(s[..k] + pat, rest, c);
        CountAppend(s[..k], pat, c);
        CountAppend(s[..k], RemoveAll(rest, pat), c);
      }
    }
  }

  /** The occurrences of one character from offset `i` are as many as `count` finds there. */
  lemma {:induction false} OccurrencesCount(s: string, c: char, i: nat)
    requires i <= |s|
    ensures |Occurrences(s, [c], i)| == Count(s[i..], c)
    decreases |s| - i
  {
    var m := FindFrom(s, [c], i);
    if m == -1 {
      assert Occurrences(s, [c], i) == [];
      OccurrencesNone(s, c, i);
    } else {
      assert Occurrences(s, [c], i) == [m] + Occurrences(s, [c], m + 1);
      OccurrencesCount(s, c, m + 1);
      OccurrencesNext(s, c, i);
    }
  }

  lemma OccurrencesNone(s: string, c: char, i: nat)
    requires i <= |s| && FindFrom(s, [c], i) == -1
    ensures Count(s[i..], c) == 0
  {
    FindCharFrom(s, c, i);
    CountAbsent(s[i..], c);
  }

  lemma OccurrencesNext(s: string, c: char, i: nat)
    requires i <= |s| && FindFrom(s, [c], i) != -1
    ensures FindFrom(s, [c], i) < |s|
    ensures Count(s[i..], c) == 1 + Count(s[FindFrom(s, [c], i) + 1..], c)
  {
    var m := FindFrom(s, [c], i);
    FindCharFrom(s, c, i);
    CountAtFirst(s[i..], c, m - i);
    assert s[i..][m - i + 1..] == s[m + 1..];
  }

  lemma {:induction false} RemoveCharAbsent(s: string, c: char)
    ensures forall k :: 0 <= k < |RemoveAll(s, [c])| ==> RemoveAll(s, [c])[k] != c
    decreases |s|
  {
    var k := FindFrom(s, [c], 0);
    FindCharFrom(s, c, 0);
    if k != -1 {
      var rest := s[k + 1..];
      RemoveCharAbsent(rest, c);
      var r := RemoveAll(s, [c]);
      assert r == s[..k] + RemoveAll(rest, [c]);
      forall m | 0 <= m < |r|
        ensures r[m] != c
      {
        if m >= k {
          assert r[m] == RemoveAll(rest, [c])[m - k];
        }
      }
    }
  }


  // ---------------------------------------------------------------- int()

  predicate IsDigit(c: char) {
    '0' <= c <= '9'
  }

  predicate IsDigits(s: string) {
    |s| > 0 && forall k :: 0 <= k < |s| ==> IsDigit(s[k])
  }

  function DigitsValue(s: string): nat
    requires forall k :: 0 <= k < |s| ==> IsDigit(s[k])
  {
    if |s| == 0 then 0
    else
      assert IsDigit(s[|s| - 1]);
      10 * DigitsValue(s[..|s| - 1]) + (s[|s| - 1] as int - '0' as int)
  }

  /** `int(s)` in base 10: white space around an optional sign and at least one digit. */
  function ParseInt(s: string): Result<int> {
    var t := Strip(s);
    if |t| > 0 && (t[0] == '+' || t[0] == '-') && IsDigits(t[1..]) then
      var v: int := DigitsValue(t[1..]);
      Ok(if t[0] == '-' then -v else v)
    else if IsDigits(t) then Ok(DigitsValue(t))
    else Err(NotAnInteger)
  }

  /** `map(int, xs)`: the first element that is not a number fails the whole list. */
  function ParseInts(xs: seq<string>): (r: Result<seq<int>>)
    ensures r.Ok? ==> |r.value| == |xs|
    ensures r.Ok? ==> forall k :: 0 <= k < |xs| ==> ParseInt(xs[k]) == Ok(r.value[k])
  {
    if |xs| == 0 then Ok([])
    else
      var head :- ParseInt(xs[0]);
      var tail :- ParseInts(xs[1..]);
      Ok([head] + tail)
  }

  function NatToString(n: nat): (s: string)
  {
    if n < 10 then [('0' as int + n) as char]
    else NatToString(n / 10) + [('0' as int + n % 10) as char]
  }

  /** `str(n)` for an integer: its decimal digits, with a leading '-' when negative. */
  function IntToString(n: int): string {
    if n < 0 then "-" + NatToString(-n) else NatToString(n)
  }

  lemma {:induction false} NatToStringDigits(n: nat)
    ensures IsDigits(NatToString(n)) && DigitsValue(NatToString(n)) == n
  {
    if n >= 10 {
      NatToStringDigits(n / 10);
      var s := NatToString(n);
      assert s[..|s| - 1] == NatToString(n / 10);
    }
  }

  /** Reading back what `str` writes gives the same integer. */
  lemma ParseIntRoundTrip(n: int)
    ensures ParseInt(IntToString(n)) == Ok(n)
  {
    var s := IntToString(n);
    var d := NatToString(if n < 0 then -n else n);
    NatToStringDigits(if n < 0 then -n else n);
    StripNone(s, Whitespace);
    if n < 0 {
      assert s[1..] == d;
    }
  }

  /** `str(n)` holds only digits and a leading minus sign. */
  lemma IntToStringChars(n: int)
    ensures forall m :: 0 <= m < |IntToString(n)| ==> IntToString(n)[m] == '-' || IsDigit(IntToString(n)[m])
  {
    var d := NatToString(if n < 0 then -n else n);
    NatToStringDigits(if n < 0 then -n else n);
    if n < 0 {
      assert IntToString(n) == "-" + d;
      assert forall m :: 0 <= m < |d| ==> ("-" + d)[m + 1] == d[m];
    }
  }

  /** `str(n)` is one word. */
  lemma IntToStringIsWord(n: int)
    ensures IsWord(IntToString(n))
  {
    IntToStringChars(n);
    NatToStringDigits(if n < 0 then -n else n);
  }

  /** `[str(n) for n in ns]`. */
  function IntStrings(ns: seq<int>): (ss: seq<string>)
    ensures |ss| == |ns|
  {
    seq(|ns|, k requires 0 <= k < |ns| => IntToString(ns[k]))
  }

  /** `map(int, xs)` succeeds with `ns` when every element parses to its counterpart. */
  lemma {:induction false} ParseIntsEach(xs: seq<string>, ns: seq<int>)
    requires |xs| == |ns|
    requires forall k :: 0 <= k < |xs| ==> ParseInt(xs[k]) == Ok(ns[k])
    ensures ParseInts(xs) == Ok(ns)
    decreases |xs|
  {
    if |xs| > 0 {
      assert ParseInt(xs[0]) == Ok(ns[0]);
      ParseIntsEach(xs[1..], ns[1..]);
      assert ns == [ns[0]] + ns[1..];
    }
  }

  /** `map(int, [str(n) for n in ns])` gives `ns` back. */
  lemma ParseIntsRoundTrip(ns: seq<int>)
    ensures ParseInts(IntStrings(ns)) == Ok(ns)
    ensures forall k :: 0 <= k < |ns| ==> IsWord(IntStrings(ns)[k])
  {
    var ss := IntStrings(ns);
    forall k | 0 <= k < |ns|
      ensures ParseInt(ss[k]) == Ok(ns[k]) && IsWord(ss[k])
    {
      ParseIntRoundTrip(ns[k]);
      IntToStringIsWord(ns[k]);
    }
    ParseIntsEach(ss, ns);
  }
}
