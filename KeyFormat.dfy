/** `formatKey` of the extracted-data card: a key in snake_case or camelCase
    becomes a Title Case heading by the chain
    replace(_ -> space), replace([A-Z] -> space + letter), trim, split(' '),
    capitalise each word, join(' '). Case mapping is ASCII only. */
module KeyFormat {
  import opened Text

  /** `.replace(/_/g, ' ')`: no underscore is left, and the length is kept
      because each underscore is replaced by exactly one space. */
  function ReplaceUnderscores(s: string): (r: string)
    ensures '_' !in r
    ensures |r| == |s|
  {
    seq(|s|, i requires 0 <= i < |s| => if s[i] == '_' then ' ' else s[i])
  }

  /** `.replace(/([A-Z])/g, ' $1')`: every ASCII capital gets a space in
      front of it. */
  function SpaceBeforeUpper(s: string): string
  {
    if s == [] then []
    else (if IsUpper(s[0]) then [' ', s[0]] else [s[0]]) + SpaceBeforeUpper(s[1..])
  }

  /** Every capital of SpaceBeforeUpper's result follows a space. */
  lemma {:induction false} SpaceBeforeUpperCapitals(s: string)
    ensures forall i :: 0 <= i < |SpaceBeforeUpper(s)| && IsUpper(SpaceBeforeUpper(s)[i]) ==>
      i > 0 && SpaceBeforeUpper(s)[i - 1] == ' '
  {
    if s != [] {
      var head := if IsUpper(s[0]) then [' ', s[0]] else [s[0]];
      var rest := SpaceBeforeUpper(s[1..]);
      var r := SpaceBeforeUpper(s);
      SpaceBeforeUpperCapitals(s[1..]);
      assert r == head + rest;
      forall i | 0 <= i < |r| && IsUpper(r[i]) ensures i > 0 && r[i - 1] == ' ' {
        if i >= |head| {
          assert r[i] == rest[i - |head|];
          if i > |head| { assert r[i - 1] == rest[i - 1 - |head|]; }
        }
      }
    }
  }

  /** SpaceBeforeUpper adds only spaces: a character other than the space
      that is absent from `s` is absent from the result. */
  lemma {:induction false} SpaceBeforeUpperKeepsAbsent(s: string, c: char)
    requires c != ' ' && c !in s
    ensures c !in SpaceBeforeUpper(s)
  {
    if s != [] {
      SpaceBeforeUpperKeepsAbsent(s[1..], c);
    }
  }

  /** The replace, replace, trim prefix of the chain. */
  function Normalize(key: string): string
  {
    Trim(SpaceBeforeUpper(ReplaceUnderscores(key)))
  }

  /** `word.charAt(0).toUpperCase() + word.slice(1).toLowerCase()` */
  function CapitalizeWord(w: string): string
  {
    if w == [] then [] else [ToUpper(w[0])] + LowerAll(w[1..])
  }

  /** `words.map(capitalise)` */
  function CapitalizeAll(ws: seq<string>): seq<string>
  {
    seq(|ws|, i requires 0 <= i < |ws| => CapitalizeWord(ws[i]))
  }

  /** `.split(' ').map(capitalise).join(' ')` */
  function TitleCase(s: string): string
  {
    Join(CapitalizeAll(Split(s, ' ')), " ")
  }

  /** `formatKey(key)` */
  function FormatKey(key: string): string
  {
    TitleCase(Normalize(key))
  }

  // ---------------------------------------------------------------------
  // A character-by-character description of TitleCase

  /** Position `i` of `s` starts a word when it is the first position or
      follows a space. */
  predicate WordStart(s: string, i: nat)
    requires i < |s|
  {
    i == 0 || s[i - 1] == ' '
  }

  /** What TitleCase puts at position `i`: spaces stay, a word's first
      character is upper-cased and every other character lower-cased. */
  function TitleChar(s: string, i: nat): char
    requires i < |s|
  {
    if s[i] == ' ' then ' ' else if WordStart(s, i) then ToUpper(s[i]) else ToLower(s[i])
  }

  // Proof helpers: TitleCase of a suffix whose first piece is, or is not,
  // the start of a word.

  function CapitalizeFrom(w: string, start: bool): string
  {
    if start then CapitalizeWord(w) else LowerAll(w)
  }

  function TitleFrom(s: string, start: bool): string
  {
    var ws := Split(s, ' ');
    Join([CapitalizeFrom(ws[0], start)] + CapitalizeAll(ws[1..]), " ")
  }

  function TitleCharFrom(s: string, start: bool, i: nat): char
    requires i < |s|
  {
    if s[i] == ' ' then ' '
    else if (if i == 0 then start else s[i - 1] == ' ') then ToUpper(s[i])
    else ToLower(s[i])
  }

  lemma CapitalizeAllCons(ws: seq<string>)
    requires |ws| > 0
    ensures CapitalizeAll(ws) == [CapitalizeWord(ws[0])] + CapitalizeAll(ws[1..])
  {
  }

  /** A leading space is kept and the next piece starts a word. */
  lemma TitleFromSpace(s: string, start: bool)
    requires s != [] && s[0] == ' '
    ensures TitleFrom(s, start) == [' '] + TitleFrom(s[1..], true)
  {
    var t := s[1..];
    var ws := Split(t, ' ');
    assert Split(s, ' ') == [""] + ws;
    assert ([""] + ws)[1..] == ws;
    CapitalizeAllCons(ws);
    assert TitleFrom(t, true) == Join(CapitalizeAll(ws), " ");
    assert TitleFrom(s, start) == Join([""] + CapitalizeAll(ws), " ");
    assert ([""] + CapitalizeAll(ws))[1..] == CapitalizeAll(ws);
  }

  /** A leading non-space is cased by `start`; what follows continues the
      same word. */
  lemma TitleFromWordChar(s: string, start: bool)
    requires s != [] && s[0] != ' '
    ensures TitleFrom(s, start) == [if start then ToUpper(s[0]) else ToLower(s[0])] + TitleFrom(s[1..], false)
  {
    var c, t := s[0], s[1..];
    var ws := Split(t, ' ');
    var rest := CapitalizeAll(ws[1..]);
    var w0 := ws[0];
    assert Split(s, ' ') == [[c] + w0] + ws[1..];
    assert ([c] + w0)[1..] == w0;
    assert LowerAll([c] + w0) == [ToLower(c)] + LowerAll(w0);
    var x := if start then ToUpper(c) else ToLower(c);
    assert CapitalizeFrom([c] + w0, start) == [x] + LowerAll(w0);
    JoinHead(x, LowerAll(w0), rest, " ");
  }

  /** One step of TitleFrom: the first character is cased as its position
      says, and the rest starts a word exactly when that character is a
      space. */
  lemma TitleFromStep(s: string, start: bool)
    requires s != []
    ensures TitleFrom(s, start) == [TitleCharFrom(s, start, 0)] + TitleFrom(s[1..], s[0] == ' ')
  {
    if s[0] == ' ' {
      TitleFromSpace(s, start);
    } else {
      TitleFromWordChar(s, start);
    }
  }

  /** Dropping the first character shifts the per-position casing by one. */
  lemma TitleCharFromShift(s: string, start: bool, i: nat)
    requires 0 < i < |s|
    ensures TitleCharFrom(s, start, i) == TitleCharFrom(s[1..], s[0] == ' ', i - 1)
  {
    assert s[1..][i - 1] == s[i];
    if i > 1 { assert s[1..][i - 2] == s[i - 1]; }
  }

  lemma {:induction false} TitleFromAt(s: string, start: bool)
    ensures |TitleFrom(s, start)| == |s|
    ensures forall i :: 0 <= i < |s| ==> TitleFrom(s, start)[i] == TitleCharFrom(s, start, i)
    decreases |s|
  {
    if s != [] {
      var t, next := s[1..], s[0] == ' ';
      var r, q := TitleFrom(s, start), TitleFrom(t, next);
      TitleFromStep(s, start);
      TitleFromAt(t, next);
      forall i | 0 <= i < |s| ensures r[i] == TitleCharFrom(s, start, i) {
        if i > 0 {
          assert r[i] == q[i - 1];
          TitleCharFromShift(s, start, i);
        }
      }
    }
  }

  /** TitleCase keeps the length and spaces of its input, upper-cases the
      first character of every word and lower-cases the rest. */
  lemma TitleCaseAt(s: string)
    ensures |TitleCase(s)| == |s|
    ensures forall i :: 0 <= i < |s| ==> TitleCase(s)[i] == TitleChar(s, i)
  {
    var ws := Split(s, ' ');
    CapitalizeAllCons(ws);
    assert TitleCase(s) == TitleFrom(s, true);
    TitleFromAt(s, true);
    forall i | 0 <= i < |s| ensures TitleCase(s)[i] == TitleChar(s, i) {
      assert TitleCharFrom(s, true, i) == TitleChar(s, i);
    }
  }

  // ---------------------------------------------------------------------
  // Properties of formatKey

  /** Normalize leaves no underscore. */
  lemma NormalizeNoUnderscore(key: string)
    ensures '_' !in Normalize(key)
  {
    var u := ReplaceUnderscores(key);
    assert '_' !in u;
    SpaceBeforeUpperKeepsAbsent(u, '_');
    TrimKeepsAbsent(SpaceBeforeUpper(u), '_');
  }

  /** Normalize neither starts nor ends with whitespace. */
  lemma NormalizeTrimmed(key: string)
    ensures Normalize(key) == [] || (!IsWhitespace(Normalize(key)[0]) && !IsWhitespace(Normalize(key)[|Normalize(key)| - 1]))
  {
    var lo, hi := TrimSlice(SpaceBeforeUpper(ReplaceUnderscores(key)));
  }

  /** Every capital letter of Normalize starts a word. */
  lemma NormalizeCapitalsStartWords(key: string)
    ensures forall i :: 0 <= i < |Normalize(key)| && IsUpper(Normalize(key)[i]) ==> WordStart(Normalize(key), i)
  {
    var b := SpaceBeforeUpper(ReplaceUnderscores(key));
    SpaceBeforeUpperCapitals(ReplaceUnderscores(key));
    var lo, hi := TrimSlice(b);
    var n := Normalize(key);
    forall i | 0 <= i < |n| && IsUpper(n[i]) ensures WordStart(n, i) {
      assert n[i] == b[lo + i];
      if i > 0 { assert n[i - 1] == b[lo + i - 1]; }
    }
  }

  /** TitleCase introduces no underscore. */
  lemma TitleCaseNoUnderscore(s: string)
    requires '_' !in s
    ensures '_' !in TitleCase(s)
  {
    TitleCaseAt(s);
    forall i | 0 <= i < |s| ensures TitleCase(s)[i] != '_' {
      assert s[i] != '_';
    }
  }

  /** TitleChar turns no character into whitespace. */
  lemma TitleCharNotWhitespace(s: string, i: nat)
    requires i < |s| && !IsWhitespace(s[i])
    ensures !IsWhitespace(TitleChar(s, i))
  {
  }

  /** TitleCase keeps ends that are not whitespace. */
  lemma TitleCaseTrimmed(s: string)
    requires s == [] || (!IsWhitespace(s[0]) && !IsWhitespace(s[|s| - 1]))
    ensures TitleCase(s) == [] || (!IsWhitespace(TitleCase(s)[0]) && !IsWhitespace(TitleCase(s)[|TitleCase(s)| - 1]))
  {
    TitleCaseAt(s);
    if s != [] {
      TitleCharNotWhitespace(s, 0);
      TitleCharNotWhitespace(s, |s| - 1);
    }
  }

  /** In TitleCase, a letter is upper case exactly when it starts a word. */
  lemma TitleCaseLetterCase(s: string)
    ensures forall i :: 0 <= i < |TitleCase(s)| && IsLetter(TitleCase(s)[i]) ==>
      (IsUpper(TitleCase(s)[i]) <==> WordStart(TitleCase(s), i))
  {
    TitleCaseAt(s);
    var r := TitleCase(s);
    forall i | 0 <= i < |r| && IsLetter(r[i]) ensures IsUpper(r[i]) <==> WordStart(r, i) {
      if i > 0 { assert r[i - 1] == ' ' <==> s[i - 1] == ' '; }
    }
  }

  /** TitleCase keeps a capital that starts a word, and the word start. */
  lemma TitleCaseKeepsWordCapitals(s: string)
    requires forall i :: 0 <= i < |s| && IsUpper(s[i]) ==> WordStart(s, i)
    ensures |TitleCase(s)| == |s|
    ensures forall i :: 0 <= i < |s| && IsUpper(s[i]) ==> TitleCase(s)[i] == s[i] && WordStart(TitleCase(s), i)
  {
    TitleCaseAt(s);
    var r := TitleCase(s);
    forall i | 0 <= i < |s| && IsUpper(s[i]) ensures r[i] == s[i] && WordStart(r, i) {
      if i > 0 { assert r[i - 1] == ' ' <==> s[i - 1] == ' '; }
    }
  }

  /** The heading contains no underscore. */
  lemma FormatKeyNoUnderscore(key: string)
    ensures '_' !in FormatKey(key)
  {
    NormalizeNoUnderscore(key);
    TitleCaseNoUnderscore(Normalize(key));
  }

  /** The heading neither starts nor ends with whitespace. */
  lemma FormatKeyTrimmed(key: string)
    ensures FormatKey(key) == [] || (!IsWhitespace(FormatKey(key)[0]) && !IsWhitespace(FormatKey(key)[|FormatKey(key)| - 1]))
  {
    NormalizeTrimmed(key);
    TitleCaseTrimmed(Normalize(key));
  }

  /** A letter of the heading is upper case exactly when it starts a word. */
  lemma FormatKeyLetterCase(key: string)
    ensures forall i :: 0 <= i < |FormatKey(key)| && IsLetter(FormatKey(key)[i]) ==>
      (IsUpper(FormatKey(key)[i]) <==> WordStart(FormatKey(key), i))
  {
    TitleCaseLetterCase(Normalize(key));
  }

  /** Every capital letter that survives normalisation (each capital of the
      key, once the space in front of it is trimmed or not) begins a word
      of the heading and keeps its case there. */
  lemma FormatKeyCapitalStartsWord(key: string)
    ensures Caps(Normalize(key)) == Caps(key)
    ensures |FormatKey(key)| == |Normalize(key)|
    ensures forall i :: 0 <= i < |Normalize(key)| && IsUpper(Normalize(key)[i]) ==>
      FormatKey(key)[i] == Normalize(key)[i] && WordStart(FormatKey(key), i)
  {
    NormalizeKeepsCapitals(key);
    NormalizeCapitalsStartWords(key);
    TitleCaseKeepsWordCapitals(Normalize(key));
  }

  // ---------------------------------------------------------------------
  // formatKey changes only separators and letter case

  predicate IsSeparator(c: char) { IsWhitespace(c) || c == '_' }

  /** The key's text with separators dropped and letters lower-cased. */
  function Fold(s: string): string
  {
    if s == [] then []
    else (if IsSeparator(s[0]) then [] else [ToLower(s[0])]) + Fold(s[1..])
  }

  lemma {:induction false} FoldAppend(a: string, b: string)
    ensures Fold(a + b) == Fold(a) + Fold(b)
  {
    if a != [] {
      var head := if IsSeparator(a[0]) then [] else [ToLower(a[0])];
      assert (a + b)[0] == a[0];
      assert (a + b)[1..] == a[1..] + b;
      FoldAppend(a[1..], b);
      assert Fold(a + b) == head + (Fold(a[1..]) + Fold(b));
      assert Fold(a) == head + Fold(a[1..]);
    } else {
      assert a + b == b;
    }
  }

  lemma {:induction false} FoldBlank(s: string)
    requires AllWhitespace(s)
    ensures Fold(s) == []
  {
    if s != [] {
      assert IsWhitespace(s[0]);
      FoldBlank(s[1..]);
    }
  }

  /** Two strings that agree on where the separators are and on every other
      character up to case fold to the same text. */
  lemma {:induction false} FoldPointwise(a: string, b: string)
    requires |a| == |b|
    requires forall i :: 0 <= i < |a| ==> IsSeparator(a[i]) == IsSeparator(b[i])
    requires forall i :: 0 <= i < |a| && !IsSeparator(a[i]) ==> ToLower(a[i]) == ToLower(b[i])
    ensures Fold(a) == Fold(b)
  {
    if a != [] {
      FoldPointwise(a[1..], b[1..]);
    }
  }

  lemma {:induction false} FoldSpaceBeforeUpper(s: string)
    ensures Fold(SpaceBeforeUpper(s)) == Fold(s)
  {
    if s != [] {
      var head := if IsUpper(s[0]) then [' ', s[0]] else [s[0]];
      FoldAppend(head, SpaceBeforeUpper(s[1..]));
      FoldSpaceBeforeUpper(s[1..]);
      if IsUpper(s[0]) {
        assert head[1..] == [s[0]];
      }
    }
  }

  lemma FoldTrim(s: string)
    ensures Fold(Trim(s)) == Fold(s)
  {
    var lo, hi := TrimSlice(s);
    var p, m, q := s[..lo], s[lo..hi], s[hi..];
    assert s == p + m + q;
    FoldAppend(p + m, q);
    FoldAppend(p, m);
    FoldBlank(p);
    FoldBlank(q);
    assert Fold(s) == Fold(m);
  }

  lemma FoldReplaceUnderscores(s: string)
    ensures Fold(ReplaceUnderscores(s)) == Fold(s)
  {
    FoldPointwise(s, ReplaceUnderscores(s));
  }

  lemma FoldTitleCase(s: string)
    ensures Fold(TitleCase(s)) == Fold(s)
  {
    var t := TitleCase(s);
    TitleCaseAt(s);
    forall i | 0 <= i < |s| ensures IsSeparator(s[i]) == IsSeparator(t[i]) && ToLower(t[i]) == ToLower(s[i]) {
      CaseFoldsAgree(s[i]);
    }
    FoldPointwise(s, t);
  }

  /** The capital letters of `s`, in order. */
  function Caps(s: string): string
  {
    if s == [] then []
    else (if IsUpper(s[0]) then [s[0]] else []) + Caps(s[1..])
  }

  lemma {:induction false} CapsAppend(a: string, b: string)
    ensures Caps(a + b) == Caps(a) + Caps(b)
  {
    if a != [] {
      var head := if IsUpper(a[0]) then [a[0]] else [];
      assert (a + b)[0] == a[0];
      assert (a + b)[1..] == a[1..] + b;
      CapsAppend(a[1..], b);
      assert Caps(a + b) == head + (Caps(a[1..]) + Caps(b));
      assert Caps(a) == head + Caps(a[1..]);
    } else {
      assert a + b == b;
    }
  }

  lemma {:induction false} CapsBlank(s: string)
    requires AllWhitespace(s)
    ensures Caps(s) == []
  {
    if s != [] {
      assert IsWhitespace(s[0]);
      CapsBlank(s[1..]);
    }
  }

  /** Two strings with capitals at the same places, and the same capitals
      there, have the same capitals. */
  lemma {:induction false} CapsPointwise(a: string, b: string)
    requires |a| == |b|
    requires forall i :: 0 <= i < |a| ==> IsUpper(a[i]) == IsUpper(b[i])
    requires forall i :: 0 <= i < |a| && IsUpper(a[i]) ==> a[i] == b[i]
    ensures Caps(a) == Caps(b)
  {
    if a != [] {
      CapsPointwise(a[1..], b[1..]);
    }
  }

  /** Replacing underscores keeps every capital. */
  lemma CapsReplaceUnderscores(s: string)
    ensures Caps(ReplaceUnderscores(s)) == Caps(s)
  {
    CapsPointwise(s, ReplaceUnderscores(s));
  }

  /** Putting a space before each capital keeps every capital. */
  lemma {:induction false} CapsSpaceBeforeUpper(s: string)
    ensures Caps(SpaceBeforeUpper(s)) == Caps(s)
  {
    if s != [] {
      var head := if IsUpper(s[0]) then [' ', s[0]] else [s[0]];
      CapsAppend(head, SpaceBeforeUpper(s[1..]));
      CapsSpaceBeforeUpper(s[1..]);
      if IsUpper(s[0]) {
        assert head[1..] == [s[0]];
      }
    }
  }

  /** Trimming keeps every capital. */
  lemma CapsTrim(s: string)
    ensures Caps(Trim(s)) == Caps(s)
  {
    var lo, hi := TrimSlice(s);
    var p, m, q := s[..lo], s[lo..hi], s[hi..];
    assert s == p + m + q;
    CapsAppend(p + m, q);
    CapsAppend(p, m);
    CapsBlank(p);
    CapsBlank(q);
  }

  /** Every capital of the key reaches the normalised text, in order, and
      no capital is added. */
  lemma NormalizeKeepsCapitals(key: string)
    ensures Caps(Normalize(key)) == Caps(key)
  {
    var u := ReplaceUnderscores(key);
    CapsReplaceUnderscores(key);
    CapsSpaceBeforeUpper(u);
    CapsTrim(SpaceBeforeUpper(u));
  }

  /** Apart from separators and letter case, the heading has exactly the
      characters of the key, in the same order: formatKey never drops or
      reorders the key's content. */
  lemma FormatKeyKeepsContent(key: string)
    ensures Fold(FormatKey(key)) == Fold(key)
  {
    var u := ReplaceUnderscores(key);
    FoldReplaceUnderscores(key);
    FoldSpaceBeforeUpper(u);
    FoldTrim(SpaceBeforeUpper(u));
    FoldTitleCase(Normalize(key));
  }

  // ---------------------------------------------------------------------
  // Worked examples

  lemma {:induction false} SpaceBeforeUpperAppend(a: string, b: string)
    ensures SpaceBeforeUpper(a + b) == SpaceBeforeUpper(a) + SpaceBeforeUpper(b)
  {
    if a != [] {
      assert (a + b)[0] == a[0];
      assert (a + b)[1..] == a[1..] + b;
      SpaceBeforeUpperAppend(a[1..], b);
    } else {
      assert a + b == b;
    }
  }

  lemma {:induction false} SpaceBeforeUpperNoCapital(s: string)
    requires forall i :: 0 <= i < |s| ==> !IsUpper(s[i])
    ensures SpaceBeforeUpper(s) == s
  {
    if s != [] {
      SpaceBeforeUpperNoCapital(s[1..]);
    }
  }

  /** Trimming leaves a string alone when its ends are not whitespace. */
  lemma TrimNoop(s: string)
    requires s != [] && !IsWhitespace(s[0]) && !IsWhitespace(s[|s| - 1])
    ensures Trim(s) == s
  {
    assert TrimStart(s) == s;
  }

  /** TitleCase of a single word capitalises it. */
  lemma TitleCaseOneWord(a: string)
    requires ' ' !in a
    ensures TitleCase(a) == CapitalizeWord(a)
  {
    SplitNoSeparator(a, ' ');
  }

  /** TitleCase of two words separated by one space capitalises each. */
  lemma TitleCaseTwoWords(a: string, b: string)
    requires ' ' !in a && ' ' !in b
    ensures TitleCase(a + " " + b) == CapitalizeWord(a) + " " + CapitalizeWord(b)
  {
    var tail := [' '] + b;
    assert a + " " + b == a + tail;
    SplitNoSeparator(b, ' ');
    assert tail[0] == ' ' && tail[1..] == b;
    assert Split(tail, ' ') == [""] + [b];
    SplitPrefix(a, tail, ' ');
    assert a + "" == a;
    var ws := Split(a + " " + b, ' ');
    assert ws == [a, b];
    var cs := [CapitalizeWord(a), CapitalizeWord(b)];
    assert CapitalizeAll(ws) == cs;
    assert cs[1..] == [CapitalizeWord(b)];
    assert Join(cs, " ") == CapitalizeWord(a) + " " + Join([CapitalizeWord(b)], " ");
  }

  /** Lower-casing a string that has no capitals changes nothing. */
  lemma LowerAllNoCapital(s: string)
    requires forall i :: 0 <= i < |s| ==> !IsUpper(s[i])
    ensures LowerAll(s) == s
  {
  }

  lemma SpaceBeforeCamelCase(a: string, c: char, w: string)
    requires forall i :: 0 <= i < |a| ==> IsLower(a[i])
    requires IsUpper(c) && forall i :: 0 <= i < |w| ==> IsLower(w[i])
    ensures SpaceBeforeUpper(a + ([c] + w)) == a + " " + ([c] + w)
  {
    SpaceBeforeUpperAppend(a, [c] + w);
    SpaceBeforeUpperNoCapital(a);
    SpaceBeforeCapitalWord(c, w);
    SpaceInFront(a, c, w);
  }

  lemma SpaceInFront(a: string, c: char, w: string)
    ensures a + ([' ', c] + w) == a + " " + ([c] + w)
  {
    assert [' ', c] + w == " " + ([c] + w);
  }

  lemma SpaceBeforeCapitalWord(c: char, w: string)
    requires IsUpper(c) && forall i :: 0 <= i < |w| ==> IsLower(w[i])
    ensures SpaceBeforeUpper([c] + w) == [' ', c] + w
  {
    assert ([c] + w)[1..] == w;
    SpaceBeforeUpperNoCapital(w);
  }

  lemma NormalizeCamelCase(a: string, c: char, w: string)
    requires a != [] && forall i :: 0 <= i < |a| ==> IsLower(a[i])
    requires IsUpper(c) && forall i :: 0 <= i < |w| ==> IsLower(w[i])
    ensures Normalize(a + ([c] + w)) == a + " " + ([c] + w)
  {
    var k, n := a + ([c] + w), a + " " + ([c] + w);
    assert ReplaceUnderscores(k) == k;
    SpaceBeforeCamelCase(a, c, w);
    assert n[0] == a[0];
    assert IsLetter(n[|n| - 1]) by {
      if w == [] { assert n[|n| - 1] == c; } else { assert n[|n| - 1] == w[|w| - 1]; }
    }
    TrimNoop(n);
  }

  lemma NoSpaceInWord(w: string)
    requires forall i :: 1 <= i < |w| ==> IsLower(w[i])
    requires w != [] ==> IsLetter(w[0])
    ensures ' ' !in w
  {
  }

  lemma CapitalizeLowerWord(w: string)
    requires w != [] && forall i :: 0 <= i < |w| ==> IsLower(w[i])
    ensures CapitalizeWord(w) == [ToUpper(w[0])] + w[1..]
  {
    LowerAllNoCapital(w[1..]);
  }

  lemma CapitalizeCapitalWord(c: char, w: string)
    requires IsUpper(c) && forall i :: 0 <= i < |w| ==> IsLower(w[i])
    ensures CapitalizeWord([c] + w) == [c] + w
  {
    assert ([c] + w)[1..] == w;
    LowerAllNoCapital(w);
  }

  /** A lower-case word followed by a capitalised word (camelCase) becomes
      two capitalised words. */
  lemma FormatKeyCamelCase(a: string, c: char, w: string)
    requires a != [] && forall i :: 0 <= i < |a| ==> IsLower(a[i])
    requires IsUpper(c) && forall i :: 0 <= i < |w| ==> IsLower(w[i])
    ensures FormatKey(a + ([c] + w)) == [ToUpper(a[0])] + a[1..] + " " + ([c] + w)
  {
    var b := [c] + w;
    NormalizeCamelCase(a, c, w);
    NoSpaceInWord(a);
    NoSpaceInWord(w);
    assert ' ' !in b;
    TitleCaseTwoWords(a, b);
    CapitalizeLowerWord(a);
    CapitalizeCapitalWord(c, w);
  }

  lemma ReplaceSnake(a: string, b: string)
    requires '_' !in a && '_' !in b
    ensures ReplaceUnderscores(a + "_" + b) == a + " " + b
  {
    var k, n := a + "_" + b, a + " " + b;
    forall i | 0 <= i < |k| ensures ReplaceUnderscores(k)[i] == n[i] {
      if i < |a| {
        assert k[i] == a[i] && n[i] == a[i];
      } else if i == |a| {
        assert k[i] == '_' && n[i] == ' ';
      } else {
        assert k[i] == b[i - |a| - 1] && n[i] == b[i - |a| - 1];
      }
    }
  }

  lemma NormalizeSnakeCase(a: string, b: string)
    requires a != [] && forall i :: 0 <= i < |a| ==> IsLower(a[i])
    requires b != [] && forall i :: 0 <= i < |b| ==> IsLower(b[i])
    ensures Normalize(a + "_" + b) == a + " " + b
  {
    var k, n := a + "_" + b, a + " " + b;
    ReplaceSnake(a, b);
    LowerWordsNoCapital(a, b);
    assert n[0] == a[0] && n[|n| - 1] == b[|b| - 1];
    NormalizeTo(k, n);
  }

  /** A key whose underscores turn into a string `n` without capitals and
      with letters at both ends normalises to `n`. */
  lemma NormalizeTo(key: string, n: string)
    requires ReplaceUnderscores(key) == n
    requires forall i :: 0 <= i < |n| ==> !IsUpper(n[i])
    requires n != [] && !IsWhitespace(n[0]) && !IsWhitespace(n[|n| - 1])
    ensures Normalize(key) == n
  {
    SpaceBeforeUpperNoCapital(n);
    TrimNoop(n);
  }

  /** Two lower-case words around a space make a string without capitals. */
  lemma LowerWordsNoCapital(a: string, b: string)
    requires forall i :: 0 <= i < |a| ==> IsLower(a[i])
    requires forall i :: 0 <= i < |b| ==> IsLower(b[i])
    ensures forall i :: 0 <= i < |a + " " + b| ==> !IsUpper((a + " " + b)[i])
  {
    var n := a + " " + b;
    forall i | 0 <= i < |n| ensures !IsUpper(n[i]) {
      if i < |a| {
        assert n[i] == a[i];
      } else if i > |a| {
        assert n[i] == b[i - |a| - 1];
      }
    }
  }

  /** Two lower-case words joined by an underscore (snake_case) become two
      capitalised words. */
  lemma FormatKeySnakeCase(a: string, b: string)
    requires a != [] && forall i :: 0 <= i < |a| ==> IsLower(a[i])
    requires b != [] && forall i :: 0 <= i < |b| ==> IsLower(b[i])
    ensures FormatKey(a + "_" + b) == [ToUpper(a[0])] + a[1..] + " " + ([ToUpper(b[0])] + b[1..])
  {
    NormalizeSnakeCase(a, b);
    TitleCaseLowerWords(a, b);
  }

  lemma TitleCaseLowerWords(a: string, b: string)
    requires a != [] && forall i :: 0 <= i < |a| ==> IsLower(a[i])
    requires b != [] && forall i :: 0 <= i < |b| ==> IsLower(b[i])
    ensures TitleCase(a + " " + b) == [ToUpper(a[0])] + a[1..] + " " + ([ToUpper(b[0])] + b[1..])
  {
    NoSpaceInWord(a);
    NoSpaceInWord(b);
    TitleCaseTwoWords(a, b);
    CapitalizeLowerWord(a);
    CapitalizeLowerWord(b);
  }

  /** A lower-case word with no separator is capitalised. */
  lemma FormatKeyOneWord(key: string)
    requires key != [] && forall i :: 0 <= i < |key| ==> IsLower(key[i])
    ensures FormatKey(key) == [ToUpper(key[0])] + key[1..]
  {
    NormalizeOneWord(key);
    NoSpaceInWord(key);
    TitleCaseOneWord(key);
    CapitalizeLowerWord(key);
  }

  lemma NormalizeOneWord(key: string)
    requires key != [] && forall i :: 0 <= i < |key| ==> IsLower(key[i])
    ensures Normalize(key) == key
  {
    assert ReplaceUnderscores(key) == key;
    SpaceBeforeUpperNoCapital(key);
    TrimNoop(key);
  }

  /** `formatKey("diagnosis")` */
  lemma FormatKeyDiagnosis()
    ensures FormatKey("diagnosis") == "Diagnosis"
  {
    var w := "diagnosis";
    assert w != [] && forall i :: 0 <= i < |w| ==> IsLower(w[i]);
    assert [ToUpper(w[0])] + w[1..] == "Diagnosis";
    FormatKeyOneWord(w);
  }

  /** `formatKey("patientName")`: the capital starts a second word. */
  lemma FormatKeyPatientName()
    ensures FormatKey("patientName") == "Patient Name"
  {
    var a, w := "patient", "ame";
    assert a + (['N'] + w) == "patientName";
    assert a != [] && forall i :: 0 <= i < |a| ==> IsLower(a[i]);
    assert forall i :: 0 <= i < |w| ==> IsLower(w[i]);
    assert [ToUpper(a[0])] + a[1..] + " " + (['N'] + w) == "Patient Name";
    FormatKeyCamelCase(a, 'N', w);
  }

  /** `formatKey("medical_history")`: the underscore separates two words. */
  lemma FormatKeyMedicalHistory()
    ensures FormatKey("medical_history") == "Medical History"
  {
    var a, b := "medical", "history";
    assert a + "_" + b == "medical_history";
    assert a != [] && forall i :: 0 <= i < |a| ==> IsLower(a[i]);
    assert b != [] && forall i :: 0 <= i < |b| ==> IsLower(b[i]);
    assert [ToUpper(a[0])] + a[1..] + " " + ([ToUpper(b[0])] + b[1..]) == "Medical History";
    FormatKeySnakeCase(a, b);
  }
}
