/**
 * The recursive-descent cursor (RDInput.java): a character source with one
 * character of lookahead that never shows whitespace.
 *
 * The java.io.Reader is modelled as the sequence `src` of the characters it
 * would deliver plus the count `pos` of those already delivered. The pure
 * functions below describe the cursor by the index of its lookahead in `src`
 * (`|src|` once the input is exhausted); the class RDInput is proved against them.
 */
module Input {
  import opened Failures

  // ---------------------------------------------------------------------------
  // Character classes
  // ---------------------------------------------------------------------------

  /**
   * Character.isWhitespace: the Unicode space, line and paragraph separators
   * other than the no-break spaces U+00A0, U+2007 and U+202F, plus the
   * controls U+0009..U+000D and U+001C..U+001F.
   */
  predicate IsWhitespace(ch: char) {
    var n := ch as int;
    9 <= n <= 13 || 28 <= n <= 32 || n == 0x1680 || 0x2000 <= n <= 0x2006
    || 0x2008 <= n <= 0x200A || n == 0x2028 || n == 0x2029 || n == 0x205F || n == 0x3000
  }

  /** Character.isLetter, restricted to ASCII letters. */
  predicate IsLetter(ch: char) {
    'a' <= ch <= 'z' || 'A' <= ch <= 'Z'
  }

  /** Character.isDigit, restricted to ASCII digits. */
  predicate IsDigit(ch: char) {
    '0' <= ch <= '9'
  }

  /** Character.isLetterOrDigit, restricted to ASCII. */
  predicate IsLetterOrDigit(ch: char) {
    IsLetter(ch) || IsDigit(ch)
  }

  /** The Java expression `ch - '0'`. */
  function DigitValue(ch: char): int {
    ch as int - '0' as int
  }

  /**
   * The base-10 value of a digit string, accumulated left to right as
   * `result * 10 + digit`.
   */
  function DecimalValue(ds: seq<char>): (v: int)
    decreases |ds|
  {
    if ds == [] then 0 else DecimalValue(ds[..|ds| - 1]) * 10 + DigitValue(ds[|ds| - 1])
  }

  /** Extending a digit slice by one character shifts its value by one decimal place. */
  lemma DecimalValueStep(s: seq<char>, start: nat, k: nat)
    requires start <= k < |s|
    ensures DecimalValue(s[start..k + 1]) == DecimalValue(s[start..k]) * 10 + DigitValue(s[k])
  {
    assert s[start..k + 1][..k - start] == s[start..k];
  }

  // ---------------------------------------------------------------------------
  // The cursor as a function of the lookahead index
  // ---------------------------------------------------------------------------

  /** The first index at or after k whose character does not satisfy p (or |s|). */
  function SpanEnd(s: seq<char>, k: nat, p: char -> bool): (r: nat)
    requires k <= |s|
    ensures k <= r <= |s|
    ensures forall j {:trigger p(s[j])} :: k <= j < r ==> p(s[j])
    ensures r < |s| ==> !p(s[r])
    decreases |s| - k
  {
    if k < |s| && p(s[k]) then SpanEnd(s, k + 1, p) else k
  }

  /** k can be the index of the lookahead: it is in range and not whitespace. */
  predicate IsLookahead(s: seq<char>, k: nat) {
    k <= |s| && (k < |s| ==> !IsWhitespace(s[k]))
  }

  /** What `peek()` returns when the lookahead index is k: NUL at end of input. */
  function CharAt(s: seq<char>, k: nat): char {
    if k < |s| then s[k] else '\0'
  }

  /** Where skipWhitespace leaves the lookahead when it starts at k. */
  function NextNonWs(s: seq<char>, k: nat): (r: nat)
    requires k <= |s|
    ensures k <= r && IsLookahead(s, r)
  {
    SpanEnd(s, k, IsWhitespace)
  }

  /** Where skip() moves the lookahead from k: one raw character on, then past whitespace. */
  function Advance(s: seq<char>, k: nat): (r: nat)
    requires k <= |s|
    ensures IsLookahead(s, r)
    ensures k < |s| ==> k < r
    ensures k == |s| ==> r == |s|
  {
    NextNonWs(s, if k < |s| then k + 1 else |s|)
  }

  /** The end of the identifier whose first letter is at k. */
  function IdentEnd(s: seq<char>, k: nat): (r: nat)
    requires k < |s|
    ensures k < r <= |s|
    ensures r < |s| ==> !IsLetterOrDigit(s[r])
  {
    SpanEnd(s, k + 1, IsLetterOrDigit)
  }

  /** A slice extended by one index grows by the character there. */
  lemma SliceStep(s: seq<char>, start: nat, i: nat)
    requires start <= i < |s|
    ensures s[start..i + 1] == s[start..i] + [s[i]]
  {
  }

  /** One more character of a run of p: the run still ends where it did. */
  lemma RunStep(s: seq<char>, i: nat, p: char -> bool)
    requires i < |s| && p(s[i])
    ensures SpanEnd(s, i + 1, p) == SpanEnd(s, i, p)
  {
  }

  /** Every character of an identifier is a letter or a digit. */
  lemma IdentChars(s: seq<char>, k: nat) returns (id: string)
    requires k < |s| && IsLetter(s[k])
    ensures id == s[k..IdentEnd(s, k)]
    ensures 0 < |id| && id[0] == s[k]
    ensures forall j :: 0 <= j < |id| ==> IsLetterOrDigit(id[j])
  {
    id := s[k..IdentEnd(s, k)];
    forall j | 0 <= j < |id| ensures IsLetterOrDigit(id[j]) {
      assert id[j] == s[k + j];
    }
  }

  /** The end of the integer literal whose first digit is at k. */
  function NumberEnd(s: seq<char>, k: nat): (r: nat)
    requires k < |s|
    ensures k < r <= |s|
    ensures r < |s| ==> !IsDigit(s[r])
  {
    SpanEnd(s, k + 1, IsDigit)
  }

  /** SpanEnd is the unique index that bounds a maximal run of p. */
  lemma SpanEndIs(s: seq<char>, k: nat, r: nat, p: char -> bool)
    requires k <= r <= |s|
    requires forall j :: k <= j < r ==> p(s[j])
    requires r < |s| ==> !p(s[r])
    ensures SpanEnd(s, k, p) == r
  {
  }

  // ---------------------------------------------------------------------------
  // The cursor object
  // ---------------------------------------------------------------------------

  class RDInput {
    /** The characters the underlying Reader delivers, in order. */
    const src: seq<char>
    /** How many characters the Reader has delivered so far. */
    var pos: nat
    /** The lookahead character (NUL at end of input). */
    var next: char
    /** True once the Reader is exhausted. */
    var atEnd: bool

    /** The fields agree with the Reader: `next` is the last character delivered. */
    ghost predicate Reading()
      reads this
    {
      pos <= |src|
      && (atEnd ==> next == '\0' && pos == |src|)
      && (!atEnd ==> 0 < pos && next == src[pos - 1])
    }

    /** The index of the lookahead in src; |src| at end of input. */
    ghost function Index(): (k: nat)
      reads this
      requires Reading()
      ensures k <= |src|
    {
      if atEnd then |src| else pos - 1
    }

    /** The invariant every public operation keeps: the lookahead is never whitespace. */
    ghost predicate Valid()
      reads this
    {
      Reading() && IsLookahead(src, Index())
    }

    /** Binds to the source and pre-loads the first token (readNext then skipWhitespace, i.e. skip()). */
    constructor (source: seq<char>)
      ensures Valid() && src == source
      ensures Index() == NextNonWs(source, 0)
    {
      src := source;
      pos := 0;
      next := '\0';
      atEnd := false;
      new;
      ReadNext();
      SkipWhitespace();
    }

    /** The current lookahead character, without consuming it. */
    function Peek(): (ch: char)
      reads this
      requires Valid()
      ensures ch == CharAt(src, Index())
      ensures Index() < |src| ==> !IsWhitespace(ch)
    {
      next
    }

    /** True iff no more characters are available. */
    function AtEnd(): (b: bool)
      reads this
      requires Valid()
      ensures b <==> Index() == |src|
    {
      atEnd
    }

    /** Consumes the lookahead and moves to the next non-whitespace character. */
    method Skip()
      requires Valid()
      modifies this
      ensures Valid()
      ensures Index() == Advance(src, old(Index()))
    {
      ReadNext();
      SkipWhitespace();
    }

    /** Skips the lookahead if it is c; otherwise fails and changes nothing. */
    method Match(c: char) returns (r: Outcome<SyntaxError>)
      requires Valid()
      modifies this
      ensures Valid()
      ensures old(Peek()) == c ==> r == Pass && Index() == Advance(src, old(Index()))
      ensures old(Peek()) != c ==> r == Fail(Expected(c, old(Peek()))) && unchanged(this)
    {
      if next == c {
        Skip();
        r := Pass;
      } else {
        r := Fail(Expected(c, next));
      }
    }

    /** Reads a letter followed by letters or digits; the lookahead must be a letter. */
    method ReadIdent() returns (id: string)
      requires Valid() && IsLetter(Peek())
      modifies this
      ensures Valid()
      ensures id == src[old(Index())..IdentEnd(src, old(Index()))]
      ensures 0 < |id| && id[0] == old(Peek())
      ensures forall k :: 0 <= k < |id| ==> IsLetterOrDigit(id[k])
      ensures Index() == NextNonWs(src, IdentEnd(src, old(Index())))
    {
      ghost var start := Index();
      ghost var ident := IdentChars(src, start);
      var builder := [next];
      assert builder == src[start..start + 1];
      ReadNext();
      ghost var i := start + 1;
      while !atEnd && IsLetterOrDigit(next)
        invariant Reading() && i == Index()
        invariant start < i <= |src|
        invariant builder == src[start..i]
        invariant SpanEnd(src, i, IsLetterOrDigit) == IdentEnd(src, start)
        decreases |src| - i
      {
        SliceStep(src, start, i);
        RunStep(src, i, IsLetterOrDigit);
        builder := builder + [next];
        ReadNext();
        i := i + 1;
      }
      assert i == IdentEnd(src, start);
      SkipWhitespace();
      id := builder;
      assert id == ident;
    }

    /** Reads a run of digits as a base-10 number; the lookahead must be a digit. */
    method ReadInt() returns (n: int)
      requires Valid() && IsDigit(Peek())
      modifies this
      ensures Valid()
      ensures n == DecimalValue(src[old(Index())..NumberEnd(src, old(Index()))])
      ensures Index() == NextNonWs(src, NumberEnd(src, old(Index())))
    {
      ghost var start := Index();
      var result := DigitValue(next);
      assert src[start..start + 1][..0] == [];
      ReadNext();
      ghost var i := start + 1;
      while !atEnd && IsDigit(next)
        invariant Reading() && i == Index()
        invariant start < i <= |src|
        invariant result == DecimalValue(src[start..i])
        invariant SpanEnd(src, i, IsDigit) == NumberEnd(src, start)
        decreases |src| - i
      {
        DecimalValueStep(src, start, i);
        RunStep(src, i, IsDigit);
        result := result * 10 + DigitValue(next);
        ReadNext();
        i := i + 1;
      }
      assert i == NumberEnd(src, start);
      SkipWhitespace();
      n := result;
    }

    /** Takes one raw character from the Reader, or records the end of input. */
    method ReadNext()
      requires pos <= |src|
      modifies this
      ensures Reading()
      ensures Index() == old(pos)
      ensures old(pos) < |src| ==> pos == old(pos) + 1 && next == src[old(pos)] && !atEnd
      ensures old(pos) == |src| ==> pos == old(pos) && next == '\0' && atEnd
    {
      if pos < |src| {
        next := src[pos];
        pos := pos + 1;
        atEnd := false;
      } else {
        next := '\0';
        atEnd := true;
      }
    }

    /** Reads raw characters while the lookahead is whitespace. */
    method SkipWhitespace()
      requires Reading()
      modifies this
      ensures Valid()
      ensures Index() == NextNonWs(src, old(Index()))
    {
      while !atEnd && IsWhitespace(next)
        invariant Reading()
        invariant old(Index()) <= Index()
        invariant NextNonWs(src, Index()) == NextNonWs(src, old(Index()))
        decreases |src| - Index()
      {
        ReadNext();
      }
    }
  }
}
