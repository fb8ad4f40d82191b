/** Names of generated export requests
    (appclusterbinding_reconcile.go, apiServiceExportRequestName and sanitizeNamePart). */
module Names {

  // ---------------------------------------------------------------- trimming and case

  /** White space as strings.TrimSpace sees it. */
  predicate IsSpace(c: char) {
    || '\t' <= c <= '\r' || c == ' '
    || c in {'\U{85}', '\U{A0}', '\U{1680}', '\U{2028}', '\U{2029}', '\U{202F}', '\U{205F}', '\U{3000}'}
    || '\U{2000}' <= c <= '\U{200A}'
  }

  predicate IsDash(c: char) { c == '-' }

  function TrimLeft(s: string, cut: char -> bool): string {
    if s != "" && cut(s[0]) then TrimLeft(s[1..], cut) else s
  }

  function TrimRight(s: string, cut: char -> bool): string {
    if s != "" && cut(s[|s| - 1]) then TrimRight(s[..|s| - 1], cut) else s
  }

  function Trim(s: string, cut: char -> bool): string {
    TrimRight(TrimLeft(s, cut), cut)
  }

  function TrimSpace(s: string): string {
    Trim(s, IsSpace)
  }

  /** Lower case of one rune. Apart from the two non-ASCII runes whose lower case is an ASCII
      letter, a non-ASCII rune stays non-ASCII, which is all that sanitizing looks at. */
  function LowerRune(c: char): char {
    if 'A' <= c <= 'Z' then c - 'A' + 'a'
    else if c == '\U{212A}' then 'k'
    else if c == '\U{130}' then 'i'
    else c
  }

  function ToLower(s: string): (r: string)
    ensures |r| == |s|
  {
    seq(|s|, i requires 0 <= i < |s| => LowerRune(s[i]))
  }

  lemma {:induction false} TrimLeftEnds(s: string, cut: char -> bool)
    ensures var t := TrimLeft(s, cut); t != "" ==> !cut(t[0])
    decreases s
  {
    if s != "" && cut(s[0]) { TrimLeftEnds(s[1..], cut); }
  }

  lemma {:induction false} TrimRightEnds(s: string, cut: char -> bool)
    ensures var t := TrimRight(s, cut); t <= s && (t != "" ==> !cut(t[|t| - 1]))
    decreases s
  {
    if s != "" && cut(s[|s| - 1]) { TrimRightEnds(s[..|s| - 1], cut); }
  }

  /** Trimming takes the characters to cut off both ends and nothing else. */
  lemma TrimIsExact(s: string, cut: char -> bool) returns (front: string, back: string)
    ensures s == front + Trim(s, cut) + back && (forall c <- front :: cut(c)) && (forall c <- back :: cut(c))
    ensures var t := Trim(s, cut); t != "" ==> !cut(t[0]) && !cut(t[|t| - 1])
  {
    var left := TrimLeft(s, cut);
    front := CutLeft(s, cut);
    back := CutRight(left, cut);
    TrimLeftEnds(s, cut);
    TrimRightEnds(left, cut);
    var t := Trim(s, cut);
    assert t != "" ==> t[0] == left[0];
    assert s == front + (t + back) == front + t + back;
  }

  lemma {:induction false} CutLeft(s: string, cut: char -> bool) returns (front: string)
    ensures s == front + TrimLeft(s, cut) && forall c <- front :: cut(c)
  {
    front := "";
    if s != "" && cut(s[0]) {
      var rest := CutLeft(s[1..], cut);
      front := [s[0]] + rest;
      assert s == [s[0]] + (rest + TrimLeft(s[1..], cut));
    }
  }

  lemma {:induction false} CutRight(s: string, cut: char -> bool) returns (back: string)
    ensures s == TrimRight(s, cut) + back && forall c <- back :: cut(c)
  {
    back := "";
    if s != "" && cut(s[|s| - 1]) {
      var n := |s| - 1;
      var rest := CutRight(s[..n], cut);
      back := rest + [s[n]];
      assert s == TrimRight(s[..n], cut) + rest + [s[n]] == TrimRight(s[..n], cut) + back;
    }
  }

  lemma TrimIsIdempotent(s: string, cut: char -> bool)
    ensures Trim(Trim(s, cut), cut) == Trim(s, cut)
  {
    TrimLeftEnds(s, cut);
    TrimRightEnds(TrimLeft(s, cut), cut);
  }

  // ---------------------------------------------------------------- sanitizing

  predicate Alnum(c: char) {
    'a' <= c <= 'z' || '0' <= c <= '9'
  }

  /** The maximal runs of letters and digits of s, the first one continuing cur. */
  function Words(s: string, cur: string): seq<string> {
    var flushed := if cur == "" then [] else [cur];
    if s == "" then flushed
    else if Alnum(s[0]) then Words(s[1..], cur + [s[0]])
    else flushed + Words(s[1..], "")
  }

  function Join(words: seq<string>): string {
    if |words| == 0 then ""
    else if |words| == 1 then words[0]
    else words[0] + "-" + Join(words[1..])
  }

  /** What sanitizing means: the words of the lower-cased input, joined by single dashes and
      cut to 24 characters. */
  function Sanitized(input: string): string {
    var joined := Join(Words(ToLower(TrimSpace(input)), ""));
    if |joined| > 24 then joined[..24] else joined
  }

  /** The loop of sanitizeNamePart on the rest of the input. */
  function Squeeze(s: string, lastDash: bool): string {
    if s == "" then ""
    else if Alnum(s[0]) then [s[0]] + Squeeze(s[1..], false)
    else if lastDash then Squeeze(s[1..], true)
    else "-" + Squeeze(s[1..], true)
  }

  lemma SqueezeStep(s: string, i: nat, lastDash: bool)
    requires i < |s|
    ensures Squeeze(s[i..], lastDash) ==
            if Alnum(s[i]) then [s[i]] + Squeeze(s[i + 1..], false)
            else if lastDash then Squeeze(s[i + 1..], true)
            else "-" + Squeeze(s[i + 1..], true)
  {
    assert s[i..][1..] == s[i + 1..];
  }

  method SanitizeNamePart(input: string) returns (r: string)
    ensures r == Sanitized(input)
  {
    var lower := ToLower(TrimSpace(input));
    var b := "";
    var lastDash := false;
    for i := 0 to |lower|
      invariant b + Squeeze(lower[i..], lastDash) == Squeeze(lower, false)
    {
      var c := lower[i];
      SqueezeStep(lower, i, lastDash);
      assert forall x, y: string :: b + (x + y) == b + x + y;
      if 'a' <= c <= 'z' {
        b := b + [c];
        lastDash := false;
      } else if '0' <= c <= '9' {
        b := b + [c];
        lastDash := false;
      } else {
        if !lastDash {
          b := b + "-";
          lastDash := true;
        }
      }
    }
    SqueezeJoinsWords(lower);
    assert b == Squeeze(lower, false) by { assert b + "" == b; }
    var sanitized := Trim(b, IsDash);
    if sanitized == "" {
      return "";
    }
    if |sanitized| > 24 {
      return sanitized[..24];
    }
    return sanitized;
  }

  /** The words of a text are found piece by piece: anything but a letter or a digit parts two pieces,
      and a piece of letters and digits is one word. */
  lemma {:induction false} WordsApart(a: string, gap: char, b: string, cur: string)
    requires !('a' <= gap <= 'z') && !('0' <= gap <= '9')
    ensures Words(a + [gap] + b, cur) == Words(a, cur) + Words(b, "")
    decreases |a|
  {
    var s := a + [gap] + b;
    if a == "" {
      assert s[1..] == b;
    } else {
      assert s[1..] == a[1..] + [gap] + b;
      if Alnum(a[0]) {
        WordsApart(a[1..], gap, b, cur + [a[0]]);
      } else {
        WordsApart(a[1..], gap, b, "");
        WordsJoined(if cur == "" then [] else [cur], Words(a[1..], ""), Words(b, ""));
      }
    }
  }

  lemma WordsJoined(a: seq<string>, b: seq<string>, c: seq<string>)
    ensures a + (b + c) == a + b + c
  {
  }

  lemma {:induction false} WordAlone(s: string, cur: string)
    requires forall i | 0 <= i < |s| :: 'a' <= s[i] <= 'z' || '0' <= s[i] <= '9'
    ensures Words(s, cur) == if cur + s == "" then [] else [cur + s]
    decreases |s|
  {
    if s != "" {
      WordAlone(s[1..], cur + [s[0]]);
      assert cur + [s[0]] + s[1..] == cur + s;
    } else {
      assert cur + s == cur;
    }
  }

  /** Texts that differ in the case of letters only. */
  predicate Alike(a: string, b: string) {
    |a| == |b| && forall i | 0 <= i < |a| :: a[i] == b[i] || ('A' <= a[i] <= 'Z' && b[i] == a[i] - 'A' + 'a')
  }

  lemma {:induction false} TrimLeftAlike(a: string, b: string)
    requires Alike(a, b)
    ensures Alike(TrimLeft(a, IsSpace), TrimLeft(b, IsSpace))
    decreases |a|
  {
    if a != "" && IsSpace(a[0]) { TrimLeftAlike(a[1..], b[1..]); }
  }

  lemma {:induction false} TrimRightAlike(a: string, b: string)
    requires Alike(a, b)
    ensures Alike(TrimRight(a, IsSpace), TrimRight(b, IsSpace))
    decreases |a|
  {
    if a != "" && IsSpace(a[|a| - 1]) { TrimRightAlike(a[..|a| - 1], b[..|a| - 1]); }
  }

  /** The case of letters does not matter. */
  lemma CaseIsIgnored(a: string, b: string)
    requires Alike(a, b)
    ensures Sanitized(a) == Sanitized(b)
  {
    TrimLeftAlike(a, b);
    TrimRightAlike(TrimLeft(a, IsSpace), TrimLeft(b, IsSpace));
    assert ToLower(TrimSpace(a)) == ToLower(TrimSpace(b));
  }

  ghost predicate IsWord(w: string) {
    w != "" && forall i | 0 <= i < |w| :: Alnum(w[i])
  }

  ghost predicate IsWords(ws: seq<string>) {
    forall i | 0 <= i < |ws| :: IsWord(ws[i])
  }

  lemma {:induction false} WordsAreWords(s: string, cur: string)
    requires forall c <- cur :: Alnum(c)
    ensures IsWords(Words(s, cur))
    decreases s
  {
    if s != "" {
      if Alnum(s[0]) { WordsAreWords(s[1..], cur + [s[0]]); } else { WordsAreWords(s[1..], ""); }
    }
  }

  /** Joined words start with a letter or digit and, unless they are none, end with one. */
  lemma {:induction false} JoinEnds(ws: seq<string>)
    requires IsWords(ws)
    ensures Join(ws) == "" <==> ws == []
    ensures ws != [] ==> Alnum(Join(ws)[0]) && Alnum(Join(ws)[|Join(ws)| - 1])
  {
    if |ws| > 0 { assert IsWord(ws[0]); }
    if |ws| > 1 { JoinEnds(ws[1..]); }
  }

  lemma TrimRightDash(s: string)
    requires s == "" || s[|s| - 1] != '-'
    ensures TrimRight(s, IsDash) == s && TrimRight(s + "-", IsDash) == s
  {
    assert (s + "-")[..|s + "-"| - 1] == s;
  }

  ghost predicate EndsInGap(s: string) {
    s != "" && !Alnum(s[|s| - 1])
  }

  lemma JoinCons(w: string, ws: seq<string>)
    ensures Join([w] + ws) == if ws == [] then w else w + "-" + Join(ws)
  {
    if ws != [] { assert ([w] + ws)[1..] == ws; }
  }

  /** Squeezing after a word in progress: the words joined, with one dash more when the input
      ends in a gap after some word. */
  lemma {:induction false} SqueezeWords(s: string, cur: string)
    requires cur != "" && forall c <- cur :: Alnum(c)
    ensures cur + Squeeze(s, false) == Join(Words(s, cur)) + (if EndsInGap(s) then "-" else "")
    decreases |s|
  {
    if s == "" {
    } else if Alnum(s[0]) {
      SqueezeWords(s[1..], cur + [s[0]]);
      assert cur + ([s[0]] + Squeeze(s[1..], false)) == cur + [s[0]] + Squeeze(s[1..], false);
      assert EndsInGap(s) <==> EndsInGap(s[1..]);
    } else {
      SqueezeWordThenGap(s, cur);
    }
  }

  lemma SqueezeWordThenGap(s: string, cur: string)
    requires cur != "" && s != "" && !Alnum(s[0])
    requires forall c <- cur :: Alnum(c)
    ensures cur + Squeeze(s, false) == Join(Words(s, cur)) + (if EndsInGap(s) then "-" else "")
    decreases |s|, 0
  {
    var rest := s[1..];
    var ws := Words(rest, "");
    assert Words(s, cur) == [cur] + ws;
    JoinCons(cur, ws);
    SqueezeGap(rest);
    if ws == [] {
      GapToTheEnd(s);
    } else {
      GapBeforeWords(s);
      JoinAssociates(cur, Join(ws), if EndsInGap(s) then "-" else "");
    }
  }

  lemma JoinAssociates(a: string, b: string, c: string)
    ensures a + ("-" + (b + c)) == a + "-" + b + c
  {
  }

  lemma GapBeforeWords(s: string)
    requires s != "" && !Alnum(s[0]) && Words(s[1..], "") != []
    ensures EndsInGap(s) <==> EndsInGap(s[1..])
  {
    WordsEmpty(s[1..]);
  }

  lemma GapToTheEnd(s: string)
    requires s != "" && !Alnum(s[0]) && Words(s[1..], "") == []
    ensures EndsInGap(s)
  {
    WordsEmpty(s[1..]);
    if |s| > 1 {
      assert s[|s| - 1] == s[1..][|s| - 2];
    }
  }

  /** Squeezing after a dash. */
  lemma {:induction false} SqueezeGap(s: string)
    ensures Squeeze(s, true) == Join(Words(s, "")) + (if EndsInGap(s) && Words(s, "") != [] then "-" else "")
    decreases |s|
  {
    if s == "" {
    } else if Alnum(s[0]) {
      SqueezeWords(s[1..], [s[0]]);
      assert "" + [s[0]] == [s[0]];
      WordsNonEmpty(s[1..], [s[0]]);
    } else {
      SqueezeGap(s[1..]);
      assert Words(s, "") == Words(s[1..], "");
    }
  }

  lemma {:induction false} WordsNonEmpty(s: string, cur: string)
    requires cur != ""
    ensures Words(s, cur) != []
    decreases s
  {
    if s != "" && Alnum(s[0]) { WordsNonEmpty(s[1..], cur + [s[0]]); }
  }

  lemma {:induction false} WordsEmpty(s: string)
    ensures Words(s, "") == [] <==> forall c <- s :: !Alnum(c)
    decreases s
  {
    if s != "" {
      if Alnum(s[0]) { WordsNonEmpty(s[1..], "" + [s[0]]); } else { WordsEmpty(s[1..]); }
    }
  }

  lemma TrimJoined(joined: string, dashBefore: bool, dashAfter: bool)
    requires joined != "" ==> Alnum(joined[0]) && Alnum(joined[|joined| - 1])
    requires joined == "" ==> !dashAfter
    ensures Trim((if dashBefore then "-" else "") + joined + (if dashAfter then "-" else ""), IsDash) == joined
  {
    var rest := joined + (if dashAfter then "-" else "");
    assert ("-" + rest)[1..] == rest;
    assert TrimLeft(rest, IsDash) == rest;
    TrimRightDash(joined);
    assert "-" + joined + (if dashAfter then "-" else "") == "-" + rest;
    assert "" + joined + (if dashAfter then "-" else "") == rest;
    assert joined + "" == joined;
  }

  lemma SqueezeJoinsWords(s: string)
    ensures Trim(Squeeze(s, false), IsDash) == Join(Words(s, ""))
  {
    var joined := Join(Words(s, ""));
    WordsAreWords(s, "");
    JoinEnds(Words(s, ""));
    if s == "" {
    } else if Alnum(s[0]) {
      var dash := EndsInGap(s[1..]);
      SqueezeFromWord(s);
      TrimJoined(joined, false, dash);
      assert "" + joined + (if dash then "-" else "") == joined + if dash then "-" else "";
    } else {
      var dash := EndsInGap(s[1..]) && Words(s, "") != [];
      SqueezeFromGap(s);
      TrimJoined(joined, true, dash);
    }
  }

  lemma SqueezeFromWord(s: string)
    requires s != "" && Alnum(s[0])
    ensures Squeeze(s, false) == Join(Words(s, "")) + (if EndsInGap(s[1..]) then "-" else "") && Words(s, "") != []
  {
    SqueezeWords(s[1..], [s[0]]);
    assert "" + [s[0]] == [s[0]];
    WordsNonEmpty(s[1..], [s[0]]);
  }

  lemma SqueezeFromGap(s: string)
    requires s != "" && !Alnum(s[0])
    ensures Squeeze(s, false) == "-" + Join(Words(s, "")) + (if EndsInGap(s[1..]) && Words(s, "") != [] then "-" else "")
  {
    SqueezeGap(s[1..]);
    assert Words(s, "") == Words(s[1..], "");
  }

  // ---------------------------------------------------------------- shape and stability

  ghost predicate NamePart(s: string) {
    && (forall i | 0 <= i < |s| :: Alnum(s[i]) || s[i] == '-')
    && (s != "" ==> Alnum(s[0]))
    && (forall i | 0 < i < |s| :: s[i - 1] == '-' ==> s[i] != '-')
  }

  lemma {:induction false} JoinShape(ws: seq<string>)
    requires IsWords(ws)
    ensures NamePart(Join(ws))
  {
    if |ws| > 0 { assert IsWord(ws[0]); }
    if |ws| > 1 {
      JoinShape(ws[1..]);
      JoinEnds(ws[1..]);
      var s, w, rest := Join(ws), ws[0], Join(ws[1..]);
      forall i | 0 < i < |s| && s[i - 1] == '-' ensures s[i] != '-' {
        if i > |w| + 1 { assert s[i - 1] == rest[i - 2 - |w|] && s[i] == rest[i - 1 - |w|]; }
      }
    }
  }

  /** Sanitizing never yields a leading or a doubled dash nor more than 24 characters. */
  lemma SanitizedShape(input: string)
    ensures NamePart(Sanitized(input)) && |Sanitized(input)| <= 24
  {
    var ws := Words(ToLower(TrimSpace(input)), "");
    WordsAreWords(ToLower(TrimSpace(input)), "");
    JoinShape(ws);
  }

  lemma {:induction false} SqueezeKeepsParts(s: string, lastDash: bool)
    requires forall i | 0 <= i < |s| :: Alnum(s[i]) || s[i] == '-'
    requires forall i | 0 < i < |s| :: s[i - 1] == '-' ==> s[i] != '-'
    requires lastDash && s != "" ==> s[0] != '-'
    ensures Squeeze(s, lastDash) == s
    decreases s
  {
    if s != "" {
      SqueezeKeepsParts(s[1..], s[0] == '-');
      assert s == [s[0]] + s[1..];
    }
  }

  lemma PartUntouched(s: string)
    requires forall i | 0 <= i < |s| :: Alnum(s[i]) || s[i] == '-'
    ensures TrimSpace(s) == s && ToLower(s) == s
  {
  }

  function WithoutTrailingDash(s: string): string {
    if s != "" && s[|s| - 1] == '-' then s[..|s| - 1] else s
  }

  function Cut24(s: string): string {
    if |s| > 24 then s[..24] else s
  }

  lemma TrimPart(s: string)
    requires NamePart(s)
    ensures Trim(s, IsDash) == WithoutTrailingDash(s)
  {
    var t := WithoutTrailingDash(s);
    assert TrimLeft(s, IsDash) == s;
    if t != s {
      assert s == t + "-";
      assert |s| > 1 && s[|s| - 2] != '-';
    }
    TrimRightDash(t);
  }

  lemma JoinedPart(s: string)
    requires NamePart(s)
    ensures Join(Words(s, "")) == WithoutTrailingDash(s)
  {
    SqueezeJoinsWords(s);
    SqueezeKeepsParts(s, false);
    TrimPart(s);
  }

  lemma SanitizedPart(s: string)
    requires NamePart(s)
    ensures Sanitized(s) == Cut24(WithoutTrailingDash(s))
  {
    PartUntouched(s);
    JoinedPart(s);
  }

  /** Stable after two applications; stable after one exactly when the joined words are not cut
      right behind a dash. */
  lemma SanitizingTwiceIsStable(input: string)
    ensures var joined := Join(Words(ToLower(TrimSpace(input)), ""));
            var once := Sanitized(input);
            var twice := Sanitized(once);
            && Sanitized(twice) == twice
            && twice == WithoutTrailingDash(once)
            && (twice == once <==> !(|joined| > 24 && joined[23] == '-'))
  {
    SanitizedShape(input);
    var once := Sanitized(input);
    SanitizedPart(once);
    var twice := WithoutTrailingDash(once);
    assert NamePart(twice);
    SanitizedPart(twice);
    LastOfJoined(ToLower(TrimSpace(input)));
  }

  /** Joined words end in a dash only where they are cut. */
  lemma LastOfJoined(s: string)
    ensures var joined := Join(Words(s, ""));
            var cut := Cut24(joined);
            (cut != "" && cut[|cut| - 1] == '-') <==> |joined| > 24 && joined[23] == '-'
  {
    WordsAreWords(s, "");
    JoinEnds(Words(s, ""));
  }

  /** Inputs that sanitizing once leaves unstable: the cut falls right after a dash. */
  lemma SanitizingOnceIsNotStable(word: string, tail: char)
    requires IsWord(word) && |word| == 23 && Alnum(tail)
    ensures Sanitized(word + "-" + [tail]) == word + "-"
    ensures Sanitized(word + "-") == word
  {
    var input := word + "-" + [tail];
    SanitizedPart(input);
    assert input[..24] == word + "-";
    SanitizedPart(word + "-");
    assert (word + "-")[..23] == word;
  }

  // ---------------------------------------------------------------- the request name

  const PREFIX := "appclusterbinding"

  function HexDigit(d: nat): char
    requires d < 16
  {
    "0123456789abcdef"[d]
  }

  /** %0nx of a number below 16 to the n. */
  function Hex(h: nat, n: nat): (r: string)
    ensures |r| == n
  {
    if n == 0 then "" else Hex(h / 16, n - 1) + [HexDigit(h % 16)]
  }

  function Pow16(n: nat): nat {
    if n == 0 then 1 else 16 * Pow16(n - 1)
  }

  predicate IsHexDigit(c: char) {
    '0' <= c <= '9' || 'a' <= c <= 'f'
  }

  lemma HexDigits(d: nat, e: nat)
    requires d < 16 && e < 16
    ensures IsHexDigit(HexDigit(d)) && (HexDigit(d) == HexDigit(e) ==> d == e)
  {
  }

  lemma {:induction false} HexIsInjective(g: nat, h: nat, n: nat)
    requires g < Pow16(n) && h < Pow16(n)
    ensures Hex(g, n) == Hex(h, n) ==> g == h
    ensures forall i | 0 <= i < n :: IsHexDigit(Hex(g, n)[i])
    decreases n
  {
    if n > 0 {
      HexIsInjective(g / 16, h / 16, n - 1);
      HexDigits(g % 16, h % 16);
      var x, y := Hex(g, n), Hex(h, n);
      if x == y {
        assert x[..n - 1] == Hex(g / 16, n - 1) && y[..n - 1] == Hex(h / 16, n - 1);
        assert x[n - 1] == HexDigit(g % 16) && y[n - 1] == HexDigit(h % 16);
      }
    }
  }

  function OrElse(part: string, default: string): string {
    if part == "" then default else part
  }

  /** apiServiceExportRequestName; hash is the 32-bit FNV-1a sum of the export name. */
  function RequestName(bindingName: string, apiExport: string, hash: nat): string {
    var bindingPart := OrElse(Sanitized(bindingName), "binding");
    var exportPart := OrElse(Sanitized(apiExport), "export");
    var hex := Hex(hash, 8);
    var name := PREFIX + "-" + bindingPart + "-" + exportPart + "-" + hex;
    if |name| <= 63 then name
    else
      var overhead := |PREFIX| + |bindingPart| + |hex| + 3;
      var maxExportLen := if 63 - overhead < 1 then 1 else 63 - overhead;
      var cut := if |exportPart| > maxExportLen then exportPart[..maxExportLen] else exportPart;
      PREFIX + "-" + bindingPart + "-" + cut + "-" + hex
  }

  /** A label in the sense of section 2.3.1 of RFC 1035, in lower case. */
  ghost predicate IsLabel(s: string) {
    && 1 <= |s| <= 63
    && 'a' <= s[0] <= 'z'
    && Alnum(s[|s| - 1])
    && forall i | 0 <= i < |s| :: Alnum(s[i]) || s[i] == '-'
  }

  /** A part of the name, or what stands in for an empty one. */
  ghost predicate PartOfName(p: string) {
    1 <= |p| <= 24 && forall i | 0 <= i < |p| :: Alnum(p[i]) || p[i] == '-'
  }

  lemma PartOrDefault(input: string, default: string)
    requires default in {"binding", "export"}
    ensures PartOfName(OrElse(Sanitized(input), default))
  {
    SanitizedShape(input);
  }

  /** The export part as it stands in a name with the binding part b. */
  function CutToFit(b: string, e: string): string {
    var room := 63 - (|PREFIX| + |b| + 8 + 3);
    if 0 <= room < |e| then e[..room] else e
  }

  lemma NameWithCut(bindingName: string, apiExport: string, hash: nat)
    ensures var b := OrElse(Sanitized(bindingName), "binding");
            var e := OrElse(Sanitized(apiExport), "export");
            && RequestName(bindingName, apiExport, hash) == PREFIX + "-" + b + "-" + CutToFit(b, e) + "-" + Hex(hash, 8)
  {
    PartOrDefault(bindingName, "binding");
    PartOrDefault(apiExport, "export");
  }

  /** The name is the prefix, the sanitized binding, the sanitized export and the hash, parted by dashes;
      a fixed word stands in for an empty part, and together the two parts have at most 35 characters,
      at the expense of the export. */
  lemma RequestNameShape(bindingName: string, apiExport: string, hash: nat)
    ensures var b := if Sanitized(bindingName) == "" then "binding" else Sanitized(bindingName);
            var e := if Sanitized(apiExport) == "" then "export" else Sanitized(apiExport);
            && PartOfName(b) && PartOfName(e)
            && RequestName(bindingName, apiExport, hash)
               == "appclusterbinding" + "-" + b + "-" + (if |b| + |e| > 35 then e[..35 - |b|] else e) + "-" + Hex(hash, 8)
  {
    NameWithCut(bindingName, apiExport, hash);
    PartOrDefault(bindingName, "binding");
    PartOrDefault(apiExport, "export");
  }

  /** For every pair of inputs and every hash the name is a valid label that ends in the eight
      hex digits of the hash; the floor of 1 on the export part is never needed, and a name
      that had to be cut has exactly 63 characters. */
  lemma RequestNameIsLabel(bindingName: string, apiExport: string, hash: nat)
    requires hash < 0x1_0000_0000
    ensures var name := RequestName(bindingName, apiExport, hash);
            && IsLabel(name) && |name| > 8 && name[|name| - 8..] == Hex(hash, 8) && IsHexDigit(name[|name| - 1])
    ensures var b := OrElse(Sanitized(bindingName), "binding");
            var e := OrElse(Sanitized(apiExport), "export");
            && 63 - (|PREFIX| + |b| + 8 + 3) >= 11
            && |RequestName(bindingName, apiExport, hash)|
               == if |PREFIX| + |b| + |e| + 11 > 63 then 63 else |PREFIX| + |b| + |e| + 11
  {
    NameWithCut(bindingName, apiExport, hash);
    PartOrDefault(bindingName, "binding");
    PartOrDefault(apiExport, "export");
    PartsMakeLabel(OrElse(Sanitized(bindingName), "binding"), OrElse(Sanitized(apiExport), "export"), hash);
  }

  lemma PartsMakeLabel(b: string, e: string, hash: nat)
    requires PartOfName(b) && PartOfName(e) && hash < 0x1_0000_0000
    ensures var name := PREFIX + "-" + b + "-" + CutToFit(b, e) + "-" + Hex(hash, 8);
            && IsLabel(name) && |name| > 8 && name[|name| - 8..] == Hex(hash, 8) && IsHexDigit(name[|name| - 1])
            && |name| == if |PREFIX| + |b| + |e| + 11 > 63 then 63 else |PREFIX| + |b| + |e| + 11
    ensures 63 - (|PREFIX| + |b| + 8 + 3) >= 11
  {
    assert Pow16(8) == 0x1_0000_0000;
    HexIsInjective(hash, hash, 8);
    Assembled(b, CutToFit(b, e), Hex(hash, 8));
  }

  lemma Assembled(b: string, e: string, hex: string)
    requires forall j | 0 <= j < |b| :: Alnum(b[j]) || b[j] == '-'
    requires forall j | 0 <= j < |e| :: Alnum(e[j]) || e[j] == '-'
    requires |hex| == 8 && forall j | 0 <= j < 8 :: IsHexDigit(hex[j])
    requires |PREFIX| + |b| + |e| + 11 <= 63
    ensures var name := PREFIX + "-" + b + "-" + e + "-" + hex;
            && |name| == |PREFIX| + |b| + |e| + 11
            && IsLabel(name) && name[|name| - 8..] == hex && IsHexDigit(name[|name| - 1])
  {
    var front := PREFIX + "-" + b + "-" + e + "-";
    var name := front + hex;
    forall i | 0 <= i < |name| ensures Alnum(name[i]) || name[i] == '-' {
      if i < |front| { PieceChars(b, e, i); } else { assert name[i] == hex[i - |front|]; }
    }
    assert name[|name| - 8..] == hex;
    assert name[|name| - 1] == hex[7];
    assert name[0] == PREFIX[0] == 'a';
  }

  lemma PieceChars(b: string, e: string, i: nat)
    requires forall j | 0 <= j < |b| :: Alnum(b[j]) || b[j] == '-'
    requires forall j | 0 <= j < |e| :: Alnum(e[j]) || e[j] == '-'
    requires i < |PREFIX + "-" + b + "-" + e + "-"|
    ensures var f := PREFIX + "-" + b + "-" + e + "-"; Alnum(f[i]) || f[i] == '-'
  {
    var m := |PREFIX| + 1;
    if i < |PREFIX| {
    } else if m <= i < m + |b| {
      assert (PREFIX + "-" + b + "-" + e + "-")[i] == b[i - m];
    } else if m + |b| + 1 <= i < m + |b| + 1 + |e| {
      assert (PREFIX + "-" + b + "-" + e + "-")[i] == e[i - m - |b| - 1];
    }
  }

  /** Names differ whenever the hashes differ, whatever the binding and the exports. */
  lemma RequestNamesDiffer(bindingName: string, e1: string, h1: nat, e2: string, h2: nat)
    requires h1 < 0x1_0000_0000 && h2 < 0x1_0000_0000 && h1 != h2
    ensures RequestName(bindingName, e1, h1) != RequestName(bindingName, e2, h2)
  {
    RequestNameIsLabel(bindingName, e1, h1);
    RequestNameIsLabel(bindingName, e2, h2);
    assert Pow16(8) == 0x1_0000_0000;
    HexIsInjective(h1, h2, 8);
  }
}
