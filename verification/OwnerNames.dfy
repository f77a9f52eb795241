/**
 * Owner class names: `BrandOwner` is stored as `brand_owner` on a link and turned back on the way
 * down. Letters are ASCII letters.
 */
module OwnerNames {
  import opened Basics
  import opened Decimals

  predicate IsUpper(c: char) {
    'A' <= c <= 'Z'
  }

  predicate IsLower(c: char) {
    'a' <= c <= 'z'
  }

  predicate IsAlnum(c: char) {
    IsUpper(c) || IsLower(c) || IsDigit(c)
  }

  predicate IsSeparator(c: char) {
    c == '_' || c == ' '
  }

  function ToLower(c: char): char {
    if IsUpper(c) then (c as int + 32) as char else c
  }

  function ToUpper(c: char): char {
    if IsLower(c) then (c as int - 32) as char else c
  }

  function Lower(s: string): (t: string)
    ensures |t| == |s| && forall i :: 0 <= i < |s| ==> t[i] == ToLower(s[i])
  {
    seq(|s|, i requires 0 <= i < |s| => ToLower(s[i]))
  }

  /** `regexp_replace(s, '([a-z0-9])([A-Z])', '\1_\2', 'g')`: matches do not overlap, left to right. */
  function SplitHumps(s: string): string {
    if |s| < 2 then s
    else if (IsLower(s[0]) || IsDigit(s[0])) && IsUpper(s[1]) then [s[0], '_', s[1]] + SplitHumps(s[2..])
    else [s[0]] + SplitHumps(s[1..])
  }

  /** The name stored on a link. */
  function Snake(s: string): string {
    Lower(SplitHumps(s))
  }

  /** `replace(s, '_', ' ')` */
  function UnderscoresToSpaces(s: string): string {
    seq(|s|, i requires 0 <= i < |s| => if s[i] == '_' then ' ' else s[i])
  }

  /** `initcap`: an alphanumeric run starts with an upper-case letter and goes on in lower case. */
  function InitCap(s: string, afterAlnum: bool): string {
    if s == "" then ""
    else [if afterAlnum then ToLower(s[0]) else ToUpper(s[0])] + InitCap(s[1..], IsAlnum(s[0]))
  }

  /** `replace(s, ' ', '')` */
  function DropSpaces(s: string): string {
    if s == "" then "" else (if s[0] == ' ' then "" else [s[0]]) + DropSpaces(s[1..])
  }

  /** The class name restored from a link. */
  function Camel(s: string): string {
    DropSpaces(InitCap(UnderscoresToSpaces(s), false))
  }

  // ---- both directions one character at a time ----

  /** A hump starts at `c` when it follows `prev`. */
  predicate HumpStart(prev: Option<char>, c: char) {
    prev.Some? && (IsLower(prev.value) || IsDigit(prev.value)) && IsUpper(c)
  }

  function HumpsFrom(prev: Option<char>, s: string): string
    decreases |s|
  {
    if s == "" then ""
    else (if HumpStart(prev, s[0]) then "_" else "") + [s[0]] + HumpsFrom(Some(s[0]), s[1..])
  }

  lemma HumpsFromFirst(prev: Option<char>, c: char, rest: string)
    ensures HumpsFrom(prev, [c] + rest) == (if HumpStart(prev, c) then "_" else "") + [c] + HumpsFrom(Some(c), rest)
  {
    assert ([c] + rest)[1..] == rest;
  }

  /** The regular expression's left-to-right matches are the hump starts: an upper-case letter starts no match. */
  lemma {:induction false} SplitHumpsFrom(s: string)
    requires s != ""
    ensures SplitHumps(s) == [s[0]] + HumpsFrom(Some(s[0]), s[1..])
    decreases |s|
  {
    if |s| > 1 {
      assert s[1..] == [s[1]] + s[2..];
      HumpsFromFirst(Some(s[0]), s[1], s[2..]);
      if !HumpStart(Some(s[0]), s[1]) {
        SplitHumpsFrom(s[1..]);
        assert s[1..][1..] == s[2..];
      } else if |s| > 2 {
        SplitHumpsFrom(s[2..]);
        assert s[2..] == [s[2]] + s[3..];
        HumpsFromFirst(Some(s[1]), s[2], s[3..]);
      }
    }
  }

  lemma SplitHumpsAll(s: string)
    ensures SplitHumps(s) == HumpsFrom(None, s)
  {
    if s != "" {
      SplitHumpsFrom(s);
      assert s == [s[0]] + s[1..];
      HumpsFromFirst(None, s[0], s[1..]);
    }
  }

  function CamelFrom(s: string, afterAlnum: bool): string {
    if s == "" then ""
    else (if IsSeparator(s[0]) then "" else [if afterAlnum then ToLower(s[0]) else ToUpper(s[0])])
         + CamelFrom(s[1..], IsAlnum(s[0]))
  }

  lemma {:induction false} CamelIsCamelFrom(s: string, afterAlnum: bool)
    ensures DropSpaces(InitCap(UnderscoresToSpaces(s), afterAlnum)) == CamelFrom(s, afterAlnum)
  {
    if s != "" {
      CamelIsCamelFrom(s[1..], IsAlnum(s[0]));
      var t := UnderscoresToSpaces(s);
      assert t[1..] == UnderscoresToSpaces(s[1..]);
      var c := if afterAlnum then ToLower(t[0]) else ToUpper(t[0]);
      assert InitCap(t, afterAlnum) == [c] + InitCap(t[1..], IsAlnum(t[0]));
      assert InitCap(t, afterAlnum)[1..] == InitCap(t[1..], IsAlnum(t[0]));
    }
  }

  // ---- class name to link name and back ----

  predicate AfterAlnum(prev: Option<char>) {
    prev.Some? && IsAlnum(prev.value)
  }

  /** What a character of a class name comes back as: capital at a word start or a hump start. */
  function Restored(prev: Option<char>, c: char): char {
    if AfterAlnum(prev) && !HumpStart(prev, c) then ToLower(c) else ToUpper(c)
  }

  function RestoredFrom(prev: Option<char>, s: string): string
    decreases |s|
  {
    if s == "" then ""
    else (if IsSeparator(s[0]) then "" else [Restored(prev, s[0])]) + RestoredFrom(Some(s[0]), s[1..])
  }

  lemma {:induction false} CamelOfSnake(prev: Option<char>, s: string)
    ensures CamelFrom(Lower(HumpsFrom(prev, s)), AfterAlnum(prev)) == RestoredFrom(prev, s)
    decreases |s|
  {
    if s != "" {
      CamelOfSnake(Some(s[0]), s[1..]);
      var rest := Lower(HumpsFrom(Some(s[0]), s[1..]));
      LowerOfHumps(prev, s[0], s[1..]);
      assert s == [s[0]] + s[1..];
      RestoredChar(prev, s[0]);
      hide Lower, ToLower, ToUpper, HumpsFrom, CamelFrom, HumpStart, IsAlnum, Restored;
      if HumpStart(prev, s[0]) {
        CamelFromUnderscore(ToLower(s[0]), rest, AfterAlnum(prev));
      } else {
        CamelFromOne(ToLower(s[0]), rest, AfterAlnum(prev));
      }
    }
  }

  /** A stored character, capitalised as its surroundings ask, is the restored one. */
  lemma RestoredChar(prev: Option<char>, c: char)
    ensures !IsAlnum('_') && IsAlnum(ToLower(c)) == IsAlnum(c) && IsSeparator(ToLower(c)) == IsSeparator(c)
    ensures HumpStart(prev, c) ==> ToUpper(ToLower(c)) == Restored(prev, c) && !IsSeparator(c)
    ensures !HumpStart(prev, c) ==>
      (if AfterAlnum(prev) then ToLower(ToLower(c)) else ToUpper(ToLower(c))) == Restored(prev, c)
  {
  }

  lemma LowerOfHumps(prev: Option<char>, c: char, rest: string)
    ensures Lower(HumpsFrom(prev, [c] + rest))
         == (if HumpStart(prev, c) then ['_', ToLower(c)] else [ToLower(c)]) + Lower(HumpsFrom(Some(c), rest))
  {
    HumpsFromFirst(prev, c, rest);
  }

  lemma CamelFromOne(a: char, rest: string, afterAlnum: bool)
    ensures CamelFrom([a] + rest, afterAlnum)
         == (if IsSeparator(a) then "" else [if afterAlnum then ToLower(a) else ToUpper(a)])
            + CamelFrom(rest, IsAlnum(a))
  {
    assert ([a] + rest)[1..] == rest;
  }

  lemma CamelFromUnderscore(b: char, rest: string, afterAlnum: bool)
    requires !IsSeparator(b)
    ensures CamelFrom(['_', b] + rest, afterAlnum) == [ToUpper(b)] + CamelFrom(rest, IsAlnum(b))
  {
    assert ['_', b] + rest == ['_'] + ([b] + rest);
    CamelFromOne('_', [b] + rest, afterAlnum);
    CamelFromOne(b, rest, false);
  }

  function Before(s: string, k: nat): Option<char>
    requires k <= |s|
  {
    if k == 0 then None else Some(s[k - 1])
  }

  /** A character of a class name that comes back unchanged. */
  predicate Stable(prev: Option<char>, c: char) {
    && !IsSeparator(c)
    && (IsUpper(c) ==> prev.None? || !IsUpper(prev.value))
    && (IsLower(c) ==> AfterAlnum(prev))
  }

  /**
   * Class names the renaming keeps: no underscore or space, no two capitals in a row, and every word
   * starts with a capital. In CamelCase terms: every hump but the last has at least two characters.
   */
  predicate CamelCase(s: string) {
    forall k :: 0 <= k < |s| ==> Stable(Before(s, k), s[k])
  }

  lemma StableIffRestored(prev: Option<char>, c: char)
    requires !IsSeparator(c)
    ensures Restored(prev, c) == c <==> Stable(prev, c)
  {
    assert IsLower(c) ==> ToUpper(c) != c;
    assert IsUpper(c) ==> ToLower(c) != c;
  }

  lemma {:induction false} RestoredIsShorter(prev: Option<char>, s: string)
    ensures |RestoredFrom(prev, s)| <= |s|
    decreases |s|
  {
    if s != "" {
      RestoredIsShorter(Some(s[0]), s[1..]);
    }
  }

  lemma {:induction false} RestoredIff(s: string, k: nat)
    requires k <= |s|
    ensures RestoredFrom(Before(s, k), s[k..]) == s[k..]
       <==> forall i :: k <= i < |s| ==> Stable(Before(s, i), s[i])
    decreases |s| - k
  {
    if k < |s| {
      var c, rest := s[k], s[k + 1..];
      assert s[k..] == [c] + rest && s[k..][1..] == rest;
      RestoredIff(s, k + 1);
      RestoredIsShorter(Some(c), rest);
      if !IsSeparator(c) {
        StableIffRestored(Before(s, k), c);
        assert RestoredFrom(Before(s, k), s[k..]) == [Restored(Before(s, k), c)] + RestoredFrom(Some(c), rest);
      }
    }
  }

  /** Main result: a class name survives the renaming exactly when it is in CamelCase. */
  lemma CamelUndoesSnakeIff(s: string)
    ensures Camel(Snake(s)) == s <==> CamelCase(s)
  {
    SplitHumpsAll(s);
    CamelIsCamelFrom(Snake(s), false);
    CamelOfSnake(None, s);
    RestoredIff(s, 0);
    assert s[0..] == s;
  }

  // ---- link name to class name and back ----

  /**
   * A link name taken to a class name and back, in one pass: `prev` was read, `emitted` is the class name's
   * last character.
   */
  function Rejoin(prev: Option<char>, emitted: Option<char>, t: string): string
    decreases |t|
  {
    if t == "" then ""
    else if IsSeparator(t[0]) then Rejoin(Some(t[0]), emitted, t[1..])
    else
      var c := if AfterAlnum(prev) then ToLower(t[0]) else ToUpper(t[0]);
      (if HumpStart(emitted, c) then "_" else "") + [ToLower(t[0])] + Rejoin(Some(t[0]), Some(c), t[1..])
  }

  /** One character of a link name, capitalised and put in lower case again. */
  lemma OneThere(emitted: Option<char>, a: char, rest: string, afterAlnum: bool)
    ensures var c := if afterAlnum then ToLower(a) else ToUpper(a);
      var name := CamelFrom(rest, IsAlnum(a));
      Lower(HumpsFrom(emitted, CamelFrom([a] + rest, afterAlnum)))
      == if IsSeparator(a) then Lower(HumpsFrom(emitted, name))
         else (if HumpStart(emitted, c) then ['_', ToLower(a)] else [ToLower(a)]) + Lower(HumpsFrom(Some(c), name))
  {
    var c := if afterAlnum then ToLower(a) else ToUpper(a);
    assert ToLower(c) == ToLower(a);
    CamelFromOne(a, rest, afterAlnum);
    LowerOfHumps(emitted, c, CamelFrom(rest, IsAlnum(a)));
    hide Lower, HumpsFrom, CamelFrom, HumpStart, ToLower, ToUpper, IsAlnum, IsSeparator;
    assert IsSeparator(a) ==> CamelFrom([a] + rest, afterAlnum) == CamelFrom(rest, IsAlnum(a));
  }

  lemma {:induction false} SnakeOfCamel(prev: Option<char>, emitted: Option<char>, t: string)
    ensures Lower(HumpsFrom(emitted, CamelFrom(t, AfterAlnum(prev)))) == Rejoin(prev, emitted, t)
    decreases |t|
  {
    if t != "" {
      var c := if AfterAlnum(prev) then ToLower(t[0]) else ToUpper(t[0]);
      assert t == [t[0]] + t[1..];
      OneThere(emitted, t[0], t[1..], AfterAlnum(prev));
      RejoinOne(prev, emitted, t[0], t[1..]);
      SnakeOfCamel(Some(t[0]), if IsSeparator(t[0]) then emitted else Some(c), t[1..]);
      hide Rejoin, Lower, HumpsFrom, CamelFrom, HumpStart, ToLower, ToUpper, IsAlnum, IsSeparator;
    }
  }

  lemma RejoinOne(prev: Option<char>, emitted: Option<char>, a: char, rest: string)
    ensures var c := if AfterAlnum(prev) then ToLower(a) else ToUpper(a);
      Rejoin(prev, emitted, [a] + rest)
      == if IsSeparator(a) then Rejoin(Some(a), emitted, rest)
         else (if HumpStart(emitted, c) then ['_', ToLower(a)] else [ToLower(a)]) + Rejoin(Some(a), Some(c), rest)
  {
    assert ([a] + rest)[1..] == rest;
    hide HumpStart, ToLower, ToUpper, AfterAlnum;
  }

  predicate Plain(t: string) {
    forall k :: 0 <= k < |t| ==> t[k] != ' ' && !IsUpper(t[k])
  }

  /** A hump can end at `emitted` only if what was read last is alphanumeric or a separator. */
  predicate InStep(prev: Option<char>, emitted: Option<char>) {
    emitted.Some? && (IsLower(emitted.value) || IsDigit(emitted.value))
    ==> prev.Some? && (IsAlnum(prev.value) || IsSeparator(prev.value))
  }

  predicate AfterSeparator(prev: Option<char>) {
    prev.Some? && IsSeparator(prev.value)
  }

  lemma {:induction false} RejoinIsPlain(prev: Option<char>, emitted: Option<char>, t: string)
    requires InStep(prev, emitted)
    ensures Plain(Rejoin(prev, emitted, t))
    ensures |Rejoin(prev, emitted, t)| <= |t| + if AfterSeparator(prev) then 1 else 0
    decreases |t|
  {
    if t != "" {
      if IsSeparator(t[0]) {
        RejoinIsPlain(Some(t[0]), emitted, t[1..]);
      } else {
        var c := if AfterAlnum(prev) then ToLower(t[0]) else ToUpper(t[0]);
        RejoinIsPlain(Some(t[0]), Some(c), t[1..]);
      }
    }
  }

  /** The last character of the class name read from `t[..k]`. */
  function Emitted(t: string, k: nat): Option<char>
    requires k <= |t|
  {
    if k == 0 then None
    else if IsSeparator(t[k - 1]) then Emitted(t, k - 1)
    else Some(if AfterAlnum(Before(t, k - 1)) then ToLower(t[k - 1]) else ToUpper(t[k - 1]))
  }

  lemma {:induction false} EmittedInStep(t: string, k: nat)
    requires k <= |t|
    ensures InStep(Before(t, k), Emitted(t, k))
  {
  }

  /** A hump ends just before the underscore at `i`: a digit, or a lower-case letter that is not a word's first. */
  predicate HumpEnds(t: string, i: nat)
    requires 0 < i <= |t|
  {
    IsDigit(t[i - 1]) || (IsLower(t[i - 1]) && i > 1 && IsAlnum(t[i - 2]))
  }

  /** What the name must look like at `i` to come back unchanged. */
  predicate Kept(t: string, i: nat)
    requires i < |t|
  {
    && t[i] != ' ' && !IsUpper(t[i])
    && (t[i] == '_' ==> 0 < i < |t| - 1 && IsLower(t[i + 1]) && HumpEnds(t, i))
  }

  /** Link names the renaming keeps: each underscore stands between the end of a hump and a lower-case letter. */
  predicate SnakeCase(t: string) {
    forall i :: 0 <= i < |t| ==> Kept(t, i)
  }

  /** `Kept`, read when the character after the underscore is reached. */
  predicate KeptNext(t: string, i: nat)
    requires i < |t|
  {
    if t[i] == '_' then 0 < i < |t| - 1 && t[i - 1] != '_'
    else Before(t, i) == Some('_') ==> IsLower(t[i]) && HumpStart(Emitted(t, i), ToUpper(t[i]))
  }

  lemma KeptTogether(t: string)
    requires Plain(t)
    ensures SnakeCase(t) <==> forall i :: 0 <= i < |t| ==> KeptNext(t, i)
  {
    if SnakeCase(t) {
      forall i | 0 <= i < |t| ensures KeptNext(t, i) {
        assert Kept(t, i) && (i > 0 ==> Kept(t, i - 1));
      }
    }
    if forall i :: 0 <= i < |t| ==> KeptNext(t, i) {
      forall i | 0 <= i < |t| ensures Kept(t, i) {
        assert KeptNext(t, i) && (i + 1 < |t| ==> KeptNext(t, i + 1));
        assert t[i] == '_' ==> Emitted(t, i + 1) == Emitted(t, i);
      }
    }
  }

  /** The underscore read just before `k` and not yet written. */
  function Pending(t: string, k: nat): string
    requires k <= |t|
  {
    if Before(t, k) == Some('_') then "_" else ""
  }

  lemma RejoinSeparator(t: string, k: nat)
    requires k < |t| && t[k] == '_'
    ensures Rejoin(Before(t, k), Emitted(t, k), t[k..]) == Rejoin(Before(t, k + 1), Emitted(t, k + 1), t[k + 1..])
  {
    assert t[k..][1..] == t[k + 1..];
  }

  lemma RejoinLetter(t: string, k: nat)
    requires k < |t| && Plain(t) && !IsSeparator(t[k])
    ensures Rejoin(Before(t, k), Emitted(t, k), t[k..])
         == (if HumpStart(Emitted(t, k), Emitted(t, k + 1).value) then "_" else "")
            + [t[k]] + Rejoin(Before(t, k + 1), Emitted(t, k + 1), t[k + 1..])
  {
    assert t[k..][1..] == t[k + 1..];
  }

  /** Whether the name comes back from `k` on, an underscore just read included. */
  predicate ComesBack(t: string, k: nat)
    requires k <= |t|
  {
    Rejoin(Before(t, k), Emitted(t, k), t[k..]) == Pending(t, k) + t[k..]
  }

  predicate KeptFrom(t: string, k: nat)
    requires k <= |t|
  {
    (Pending(t, k) == "_" ==> k < |t|) && forall i :: k <= i < |t| ==> KeptNext(t, i)
  }

  lemma ComesBackSeparator(t: string, k: nat)
    requires k < |t| && Plain(t) && t[k] == '_'
    ensures ComesBack(t, k) <==> Pending(t, k) == "" && ComesBack(t, k + 1)
  {
    EmittedInStep(t, k + 1);
    RejoinIsPlain(Before(t, k + 1), Emitted(t, k + 1), t[k + 1..]);
    RejoinSeparator(t, k);
    assert Pending(t, k + 1) + t[k + 1..] == t[k..];
    assert Pending(t, k) == "_" ==> |Pending(t, k) + t[k..]| > |t[k..]|;
    assert Pending(t, k) == "" ==> Pending(t, k) + t[k..] == t[k..];
  }

  lemma HumpNeedsUnderscore(t: string, k: nat)
    requires k < |t| && Plain(t) && !IsSeparator(t[k])
    ensures var hump := HumpStart(Emitted(t, k), Emitted(t, k + 1).value);
      (hump ==> Pending(t, k) == "_") && (KeptNext(t, k) <==> (Pending(t, k) == "_" ==> hump))
  {
    EmittedInStep(t, k);
  }

  /** Two strings that agree on an optional underscore and then a letter. */
  lemma SameAfterUnderscore(a: bool, b: bool, c: char, s: string, t: string)
    requires c != '_'
    ensures (if a then "_" else "") + [c] + s == (if b then "_" else "") + ([c] + t) <==> a == b && s == t
  {
    var x, y := (if a then "_" else "") + [c] + s, (if b then "_" else "") + ([c] + t);
    if x == y {
      assert x[0] == y[0];
      assert x[if a then 2 else 1..] == s && y[if b then 2 else 1..] == t;
    }
  }

  lemma ComesBackLetter(t: string, k: nat)
    requires k < |t| && Plain(t) && t[k] != '_'
    ensures ComesBack(t, k) <==> KeptNext(t, k) && ComesBack(t, k + 1)
  {
    RejoinLetter(t, k);
    HumpNeedsUnderscore(t, k);
    var hump := HumpStart(Emitted(t, k), Emitted(t, k + 1).value);
    var rest := Rejoin(Before(t, k + 1), Emitted(t, k + 1), t[k + 1..]);
    hide Rejoin, Emitted, HumpStart, KeptNext, Plain;
    assert ComesBack(t, k + 1) <==> rest == t[k + 1..] by {
      assert Pending(t, k + 1) + t[k + 1..] == t[k + 1..];
    }
    assert t[k..] == [t[k]] + t[k + 1..];
    SameAfterUnderscore(hump, Pending(t, k) == "_", t[k], rest, t[k + 1..]);
  }

  lemma {:induction false} RejoinIff(t: string, k: nat)
    requires k <= |t| && Plain(t)
    ensures ComesBack(t, k) <==> KeptFrom(t, k)
    decreases |t| - k
  {
    if k < |t| {
      RejoinIff(t, k + 1);
      assert KeptFrom(t, k) ==> KeptNext(t, k);
      if t[k] == '_' {
        ComesBackSeparator(t, k);
        assert Pending(t, k + 1) == "_";
        assert k == 0 && |t| > 1 ==> !KeptNext(t, 1);
        assert KeptNext(t, k) ==> Pending(t, k) == "";
      } else {
        ComesBackLetter(t, k);
      }
    }
  }

  /** Main result, the other way: a link name survives exactly when it is in snake_case. */
  lemma SnakeUndoesCamelIff(t: string)
    ensures Snake(Camel(t)) == t <==> SnakeCase(t)
  {
    CamelIsCamelFrom(t, false);
    SplitHumpsAll(Camel(t));
    SnakeOfCamel(None, None, t);
    RejoinIsPlain(None, None, t);
    assert SnakeCase(t) ==> Plain(t) by {
      forall k | 0 <= k < |t| && SnakeCase(t) ensures t[k] != ' ' && !IsUpper(t[k]) {
        assert Kept(t, k);
      }
    }
    if Plain(t) {
      RejoinIff(t, 0);
      KeptTogether(t);
      assert t[0..] == t;
    }
  }

  /** The renaming of a CamelCase name is in snake_case, so it is stable from then on. */
  lemma CamelCaseGivesSnakeCase(s: string)
    requires CamelCase(s)
    ensures SnakeCase(Snake(s))
  {
    CamelUndoesSnakeIff(s);
    SnakeUndoesCamelIff(Snake(s));
  }

  /** A class name written with an acronym is not restored. */
  lemma AcronymIsLost()
    ensures Camel(Snake("GPSDevice")) != "GPSDevice"
  {
    CamelUndoesSnakeIff("GPSDevice");
    assert !Stable(Before("GPSDevice", 1), "GPSDevice"[1]);
  }

  // ---- what each renaming does, piece by piece ----

  lemma {:induction false} HumpsAppend(prev: Option<char>, s: string, t: string)
    requires s != ""
    ensures HumpsFrom(prev, s + t) == HumpsFrom(prev, s) + HumpsFrom(Some(s[|s| - 1]), t)
    decreases |s|
  {
    var rest := s[1..];
    assert s + t == [s[0]] + (rest + t) && s == [s[0]] + rest;
    HumpsFromFirst(prev, s[0], rest + t);
    HumpsFromFirst(prev, s[0], rest);
    assert HumpsFrom(Some(s[0]), "") == "";
    if |s| == 1 {
      assert rest == "" && rest + t == t;
    } else {
      HumpsAppend(Some(s[0]), rest, t);
      assert rest[|rest| - 1] == s[|s| - 1];
    }
    hide HumpsFrom, HumpStart;
    var first := (if HumpStart(prev, s[0]) then "_" else "") + [s[0]];
    Associative(first, HumpsFrom(Some(s[0]), rest), HumpsFrom(Some(s[|s| - 1]), t));
  }

  lemma HumpBetween(a: char, t: string)
    requires t != ""
    ensures HumpsFrom(Some(a), t)
         == (if (IsLower(a) || IsDigit(a)) && IsUpper(t[0]) then "_" else "") + HumpsFrom(None, t)
  {
    assert t == [t[0]] + t[1..];
    HumpsFromFirst(Some(a), t[0], t[1..]);
    HumpsFromFirst(None, t[0], t[1..]);
  }

  /**
   * The link name: each character in lower case, and an underscore between two neighbours exactly where a
   * small letter or a digit meets a capital. These two laws determine it.
   */
  lemma SnakeByParts(c: char, s: string, t: string)
    ensures Snake([c]) == [ToLower(c)] && Snake("") == ""
    ensures s != "" && t != "" ==>
      Snake(s + t)
      == Snake(s) + (if (IsLower(s[|s| - 1]) || IsDigit(s[|s| - 1])) && IsUpper(t[0]) then "_" else "") + Snake(t)
  {
    if s != "" && t != "" {
      var a := s[|s| - 1];
      SplitHumpsAll(s + t);
      SplitHumpsAll(s);
      SplitHumpsAll(t);
      HumpsAppend(None, s, t);
      HumpBetween(a, t);
      hide HumpsFrom, SplitHumps, Lower, IsLower, IsUpper, IsDigit;
      LowerOfThree(HumpsFrom(None, s), (IsLower(a) || IsDigit(a)) && IsUpper(t[0]), HumpsFrom(None, t));
    }
  }

  lemma LowerOfThree(s: string, bar: bool, t: string)
    ensures Lower(s + ((if bar then "_" else "") + t)) == Lower(s) + (if bar then "_" else "") + Lower(t)
  {
  }

  lemma {:induction false} CamelAppend(s: string, t: string, afterAlnum: bool)
    requires s != ""
    ensures CamelFrom(s + t, afterAlnum) == CamelFrom(s, afterAlnum) + CamelFrom(t, IsAlnum(s[|s| - 1]))
    decreases |s|
  {
    var rest := s[1..];
    assert s + t == [s[0]] + (rest + t) && s == [s[0]] + rest;
    CamelFromOne(s[0], rest + t, afterAlnum);
    CamelFromOne(s[0], rest, afterAlnum);
    assert CamelFrom("", IsAlnum(s[0])) == "";
    if |s| == 1 {
      assert rest == "" && rest + t == t;
    } else {
      CamelAppend(rest, t, IsAlnum(s[0]));
      assert rest[|rest| - 1] == s[|s| - 1];
    }
    hide CamelFrom, IsAlnum, IsSeparator, ToLower, ToUpper;
    var first := if IsSeparator(s[0]) then "" else [if afterAlnum then ToLower(s[0]) else ToUpper(s[0])];
    Associative(first, CamelFrom(rest, IsAlnum(s[0])), CamelFrom(t, IsAlnum(s[|s| - 1])));
  }

  lemma Associative(a: string, b: string, c: string)
    ensures a + (b + c) == a + b + c
  {
  }

  lemma {:induction false} RestOfWord(w: string)
    requires forall i :: 0 <= i < |w| ==> IsAlnum(w[i])
    ensures CamelFrom(w, true) == Lower(w)
    decreases |w|
  {
    if w != "" {
      RestOfWord(w[1..]);
      assert w == [w[0]] + w[1..];
      CamelFromOne(w[0], w[1..], true);
    }
  }

  /**
   * The class name: each word of letters and digits with its first character as a capital and the rest small;
   * underscores and spaces go, other characters stay. These two laws determine it.
   */
  lemma CamelByParts(w: string, c: char, s: string, t: string)
    requires w != "" && forall i :: 0 <= i < |w| ==> IsAlnum(w[i])
    requires !IsAlnum(c)
    ensures Camel(w) == [ToUpper(w[0])] + Lower(w[1..]) && Camel("") == ""
    ensures Camel(s + [c] + t) == Camel(s) + (if c == '_' || c == ' ' then "" else [c]) + Camel(t)
  {
    WordInCamel(w);
    BreakInCamel(c, s, t);
  }

  lemma BreakInCamel(c: char, s: string, t: string)
    requires !IsAlnum(c)
    ensures Camel(s + [c] + t) == Camel(s) + (if c == '_' || c == ' ' then "" else [c]) + Camel(t)
  {
    CamelIsCamelFrom(s + [c] + t, false);
    CamelIsCamelFrom(s, false);
    CamelIsCamelFrom(t, false);
    var after := s != "" && IsAlnum(s[|s| - 1]);
    CamelFromOne(c, t, after);
    assert (if after then ToLower(c) else ToUpper(c)) == c;
    if s != "" {
      CamelAppend(s, [c] + t, false);
    } else {
      assert CamelFrom(s, false) == "";
    }
    hide CamelFrom, Camel, ToLower, ToUpper, IsAlnum;
    Associative(s, [c], t);
    assert s == "" ==> s + [c] + t == [c] + t;
    Associative(CamelFrom(s, false), if c == '_' || c == ' ' then "" else [c], CamelFrom(t, false));
  }

  lemma WordInCamel(w: string)
    requires w != "" && forall i :: 0 <= i < |w| ==> IsAlnum(w[i])
    ensures Camel(w) == [ToUpper(w[0])] + Lower(w[1..]) && Camel("") == "" && CamelFrom("", false) == ""
  {
    CamelIsCamelFrom(w, false);
    RestOfWord(w[1..]);
    assert w == [w[0]] + w[1..];
    CamelFromOne(w[0], w[1..], false);
  }

  // ---- the stored link name ----

  /** The width of a link's owner name. */
  const LINK_WIDTH := 50

  /** The name as the link's column is given it. */
  function LinkName(s: string): string {
    Varchar(Snake(s), LINK_WIDTH)
  }

  lemma {:induction false} DropSpacesDrops(s: string)
    ensures ' ' !in DropSpaces(s)
  {
    if s != "" {
      DropSpacesDrops(s[1..]);
    }
  }

  lemma {:induction false} HumpsKeepSpaces(prev: Option<char>, s: string)
    ensures ' ' in HumpsFrom(prev, s) <==> ' ' in s
    decreases |s|
  {
    if s != "" {
      HumpsKeepSpaces(Some(s[0]), s[1..]);
      assert s == [s[0]] + s[1..];
    }
  }

  lemma SnakeKeepsSpaces(s: string)
    ensures ' ' in Snake(s) <==> ' ' in s
  {
    SplitHumpsAll(s);
    HumpsKeepSpaces(None, s);
    var t := SplitHumps(s);
    assert forall i :: 0 <= i < |t| ==> (Lower(t)[i] == ' ' <==> t[i] == ' ');
  }

  /** The column changes no name that holds no space. */
  lemma UnspacedLinkName(s: string)
    requires ' ' !in s
    ensures LinkName(s) == Snake(s)
  {
    SnakeKeepsSpaces(s);
    var t := Snake(s);
    assert LINK_WIDTH < |t| ==> t[LINK_WIDTH] in t && t[LINK_WIDTH] != ' ';
  }

  /** Main result: through a link's column, too, a class name survives exactly when it is in CamelCase. */
  lemma LinkNameRestoredIff(s: string)
    ensures Camel(LinkName(s)) == s <==> CamelCase(s)
  {
    DropSpacesDrops(InitCap(UnderscoresToSpaces(LinkName(s)), false));
    if ' ' in s {
      var k :| 0 <= k < |s| && s[k] == ' ';
      assert !Stable(Before(s, k), s[k]);
    } else {
      UnspacedLinkName(s);
      CamelUndoesSnakeIff(s);
    }
  }

  /** Main result: a link's name is the same after down and up exactly when it is in snake_case. */
  lemma LinkNameKeptIff(t: string)
    ensures LinkName(Camel(t)) == t <==> SnakeCase(t)
  {
    DropSpacesDrops(InitCap(UnderscoresToSpaces(t), false));
    UnspacedLinkName(Camel(t));
    SnakeUndoesCamelIff(t);
  }

  /** A class name read off a link is no longer than the link's name, and goes back into its column. */
  lemma CamelIsShorter(t: string)
    ensures |Camel(t)| <= |t| && |Snake(Camel(t))| <= |t|
  {
    CamelIsCamelFrom(t, false);
    SplitHumpsAll(Camel(t));
    SnakeOfCamel(None, None, t);
    RejoinIsPlain(None, None, t);
    SnakeLength(Camel(t));
  }

  /** A CamelCase name that fits the column is stored as a snake_case name. */
  lemma CamelCaseLinkName(s: string)
    requires CamelCase(s)
    ensures LinkName(s) == Snake(s) && SnakeCase(LinkName(s))
  {
    CamelCaseGivesSnakeCase(s);
    forall k | 0 <= k < |s| ensures s[k] != ' ' {
      assert Stable(Before(s, k), s[k]);
    }
    UnspacedLinkName(s);
  }

  lemma SnakeLength(s: string)
    ensures |Snake(s)| >= |s|
  {
    SplitHumpsAll(s);
    HumpsLength(None, s);
  }

  lemma {:induction false} HumpsLength(prev: Option<char>, s: string)
    ensures |HumpsFrom(prev, s)| >= |s|
    decreases |s|
  {
    if s != "" {
      HumpsLength(Some(s[0]), s[1..]);
    }
  }
}
