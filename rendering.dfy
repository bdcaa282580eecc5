/** Text helpers shared by the diagnostic messages: decimal rendering of
    integers (how a status code appears in an f-string) and the facts about
    newline-separated text that let a reader take a message apart again. */
module Rendering {

  /** No character of `s` is a line break. */
  predicate NoNewline(s: string) {
    forall i :: 0 <= i < |s| ==> s[i] != '\n'
  }

  /** Index of the first line break in `s`, or `|s|` when there is none. */
  function FirstNewline(s: string): (k: nat)
    ensures k <= |s|
    ensures NoNewline(s[..k])
    ensures k < |s| ==> s[k] == '\n'
  {
    if s == [] then 0
    else if s[0] == '\n' then 0
    else
      var k := 1 + FirstNewline(s[1..]);
      assert s[..k] == [s[0]] + s[1..][..k - 1];
      k
  }

  /** A line that holds no line break ends exactly where its "\n" is. */
  lemma {:induction false} FirstNewlineAfterLine(x: string, y: string)
    requires NoNewline(x)
    ensures FirstNewline(x + "\n" + y) == |x|
  {
    if x != [] {
      assert (x + "\n" + y)[1..] == x[1..] + "\n" + y;
      FirstNewlineAfterLine(x[1..], y);
    }
  }

  /** Text made of a line without line breaks, "\n", and a rest, splits back
      into that same line and that same rest. */
  lemma SplitAtNewline(x: string, y: string, x': string, y': string)
    requires NoNewline(x) && NoNewline(x')
    requires x + "\n" + y == x' + "\n" + y'
    ensures x == x' && y == y'
  {
    var s := x + "\n" + y;
    FirstNewlineAfterLine(x, y);
    FirstNewlineAfterLine(x', y');
    assert |x| == |x'|;
    assert x == s[..|x|] == x';
    assert y == s[|x| + 1..] == y';
  }

  /** Equal texts that start with equal prefixes have equal rests. */
  lemma DropCommonPrefix(p: string, a: string, b: string)
    requires p + a == p + b
    ensures a == b
  {
    assert a == (p + a)[|p|..];
    assert b == (p + b)[|p|..];
  }

  /** Equal texts that end with equal suffixes have equal beginnings. */
  lemma DropCommonSuffix(a: string, b: string, q: string)
    requires a + q == b + q
    ensures a == b
  {
    assert a == (a + q)[..|a|];
    assert b == (b + q)[..|b|];
  }

  /** Concatenation regrouped. */
  lemma Assoc(a: string, b: string, c: string)
    ensures a + b + c == a + (b + c)
  {
  }

  /** Five pieces appended one after the other to a text are that text
      followed by the five pieces. */
  lemma AppendFive(o: string, a: string, b: string, c: string, d: string, e: string)
    ensures o + a + b + c + d + e == o + (a + b + c + d + e)
  {
  }

  /** Two lines after a common prefix, the second one opening with a common
      label, followed by a rest: the two line contents and the rest are
      determined by the whole text. */
  lemma SplitTwoLines(p: string, q: string, x1: string, y1: string, t1: string,
                      x2: string, y2: string, t2: string)
    requires NoNewline(x1) && NoNewline(x2) && NoNewline(y1) && NoNewline(y2)
    requires p + x1 + ("\n" + q) + y1 + "\n" + t1 == p + x2 + ("\n" + q) + y2 + "\n" + t2
    ensures x1 == x2 && y1 == y2 && t1 == t2
  {
    assert p + x1 + ("\n" + q) + y1 + "\n" + t1 == p + (x1 + "\n" + (q + (y1 + "\n" + t1)));
    assert p + x2 + ("\n" + q) + y2 + "\n" + t2 == p + (x2 + "\n" + (q + (y2 + "\n" + t2)));
    DropCommonPrefix(p, x1 + "\n" + (q + (y1 + "\n" + t1)), x2 + "\n" + (q + (y2 + "\n" + t2)));
    SplitAtNewline(x1, q + (y1 + "\n" + t1), x2, q + (y2 + "\n" + t2));
    DropCommonPrefix(q, y1 + "\n" + t1, y2 + "\n" + t2);
    SplitAtNewline(y1, t1, y2, t2);
  }

  /** Three labelled lines after a common heading, then a rest: the three
      line contents and the rest are determined by the whole text. */
  lemma SplitThreeLines(h: string, a: string, b: string, c: string,
                        x1: string, y1: string, z1: string, t1: string,
                        x2: string, y2: string, z2: string, t2: string)
    requires NoNewline(x1) && NoNewline(y1) && NoNewline(z1)
    requires NoNewline(x2) && NoNewline(y2) && NoNewline(z2)
    requires (h + a + x1 + "\n") + (b + y1 + "\n") + (c + z1 + "\n") + t1
          == (h + a + x2 + "\n") + (b + y2 + "\n") + (c + z2 + "\n") + t2
    ensures x1 == x2 && y1 == y2 && z1 == z2 && t1 == t2
  {
    assert (h + a + x1 + "\n") + (b + y1 + "\n") + (c + z1 + "\n") + t1
        == h + a + (x1 + "\n" + (b + (y1 + "\n" + (c + (z1 + "\n" + t1)))));
    assert (h + a + x2 + "\n") + (b + y2 + "\n") + (c + z2 + "\n") + t2
        == h + a + (x2 + "\n" + (b + (y2 + "\n" + (c + (z2 + "\n" + t2)))));
    DropCommonPrefix(h + a, x1 + "\n" + (b + (y1 + "\n" + (c + (z1 + "\n" + t1)))),
                            x2 + "\n" + (b + (y2 + "\n" + (c + (z2 + "\n" + t2)))));
    SplitAtNewline(x1, b + (y1 + "\n" + (c + (z1 + "\n" + t1))), x2, b + (y2 + "\n" + (c + (z2 + "\n" + t2))));
    DropCommonPrefix(b, y1 + "\n" + (c + (z1 + "\n" + t1)), y2 + "\n" + (c + (z2 + "\n" + t2)));
    SplitAtNewline(y1, c + (z1 + "\n" + t1), y2, c + (z2 + "\n" + t2));
    DropCommonPrefix(c, z1 + "\n" + t1, z2 + "\n" + t2);
    SplitAtNewline(z1, t1, z2, t2);
  }

  /** Three lines after a common prefix, the second and third opening with
      common labels and the second closing with a space, then a rest: the
      three line contents and the rest are determined by the whole text. */
  lemma SplitSpacedLines(p: string, q: string, r: string,
                         x1: string, y1: string, z1: string, t1: string,
                         x2: string, y2: string, z2: string, t2: string)
    requires NoNewline(q)
    requires NoNewline(x1) && NoNewline(y1) && NoNewline(z1)
    requires NoNewline(x2) && NoNewline(y2) && NoNewline(z2)
    requires p + x1 + ("\n" + q) + y1 + (" " + ("\n" + r)) + z1 + "\n" + t1
          == p + x2 + ("\n" + q) + y2 + (" " + ("\n" + r)) + z2 + "\n" + t2
    ensures x1 == x2 && y1 == y2 && z1 == z2 && t1 == t2
  {
    var l1, l2 := q + y1 + " ", q + y2 + " ";
    assert p + x1 + ("\n" + q) + y1 + (" " + ("\n" + r)) + z1 + "\n" + t1
        == p + (x1 + "\n" + (l1 + "\n" + (r + (z1 + "\n" + t1))));
    assert p + x2 + ("\n" + q) + y2 + (" " + ("\n" + r)) + z2 + "\n" + t2
        == p + (x2 + "\n" + (l2 + "\n" + (r + (z2 + "\n" + t2))));
    DropCommonPrefix(p, x1 + "\n" + (l1 + "\n" + (r + (z1 + "\n" + t1))),
                        x2 + "\n" + (l2 + "\n" + (r + (z2 + "\n" + t2))));
    SplitAtNewline(x1, l1 + "\n" + (r + (z1 + "\n" + t1)), x2, l2 + "\n" + (r + (z2 + "\n" + t2)));
    assert NoNewline(l1) && NoNewline(l2);
    SplitAtNewline(l1, r + (z1 + "\n" + t1), l2, r + (z2 + "\n" + t2));
    DropCommonSuffix(q + y1, q + y2, " ");
    DropCommonPrefix(q, y1, y2);
    DropCommonPrefix(r, z1 + "\n" + t1, z2 + "\n" + t2);
    SplitAtNewline(z1, t1, z2, t2);
  }

  /** The decimal digit character for `d`. */
  function Digit(d: int): (c: char)
    requires 0 <= d < 10
    ensures '0' <= c <= '9'
    ensures c as int - '0' as int == d
  {
    (d + '0' as int) as char
  }

  /** A natural number written in decimal, most significant digit first,
      without leading zeros. */
  function NatDecimal(n: nat): (s: string)
    ensures |s| >= 1
    ensures forall i :: 0 <= i < |s| ==> '0' <= s[i] <= '9'
    ensures n >= 10 ==> |s| >= 2
  {
    if n < 10 then [Digit(n)] else NatDecimal(n / 10) + [Digit(n % 10)]
  }

  /** An integer written as Python's `str` writes it: a minus sign for
      negative numbers, then the decimal digits. */
  function Decimal(n: int): (s: string)
    ensures NoNewline(s)
    ensures |s| >= 1
    ensures (s[0] == '-') <==> n < 0
  {
    if n < 0 then "-" + NatDecimal(-n) else NatDecimal(n)
  }

  /** Different naturals have different decimal texts. */
  lemma {:induction false} NatDecimalInjective(a: nat, b: nat)
    requires NatDecimal(a) == NatDecimal(b)
    ensures a == b
  {
    var s := NatDecimal(a);
    if a < 10 {
      assert |s| == 1;
      assert b < 10;
      assert Digit(a) == s[0] == Digit(b);
    } else {
      assert |s| >= 2;
      assert b >= 10;
      assert Digit(a % 10) == s[|s| - 1] == Digit(b % 10);
      DropCommonSuffix(NatDecimal(a / 10), NatDecimal(b / 10), [Digit(a % 10)]);
      NatDecimalInjective(a / 10, b / 10);
    }
  }

  /** Different integers have different decimal texts, so the text of a
      number determines the number. */
  lemma DecimalInjective(a: int, b: int)
    requires Decimal(a) == Decimal(b)
    ensures a == b
  {
    if a < 0 {
      DropCommonPrefix("-", NatDecimal(-a), NatDecimal(-b));
      NatDecimalInjective(-a, -b);
    } else {
      NatDecimalInjective(a, b);
    }
  }
}
