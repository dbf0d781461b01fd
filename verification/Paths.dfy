/** suffixedPath and the candidate names an export tries. */
module Paths {

  // -------------------------------------------------------------- decimals

  function Digit(d: nat): char
    requires d < 10
  {
    ['0', '1', '2', '3', '4', '5', '6', '7', '8', '9'][d]
  }

  function DigitValue(c: char): nat {
    if '0' <= c <= '9' then (c - '0') as nat else 0
  }

  /** %d of a natural number. */
  function Decimal(n: nat): (s: string)
    ensures s != []
  {
    if n < 10 then [Digit(n)] else Decimal(n / 10) + [Digit(n % 10)]
  }

  function Value(s: string): nat {
    if s == [] then 0 else 10 * Value(s[..|s| - 1]) + DigitValue(s[|s| - 1])
  }

  lemma DigitReads(d: nat)
    requires d < 10
    ensures DigitValue(Digit(d)) == d
  {
  }

  lemma {:induction false} DecimalReads(n: nat)
    ensures Value(Decimal(n)) == n
  {
    DigitReads(n % 10);
    if n < 10 {
      assert Decimal(n)[..0] == [];
    } else {
      DecimalReads(n / 10);
      assert Decimal(n)[..|Decimal(n)| - 1] == Decimal(n / 10);
    }
  }

  /** It is written in digits and without leading zeros. */
  lemma {:induction false} DecimalCanonical(n: nat)
    ensures forall i | 0 <= i < |Decimal(n)| :: '0' <= Decimal(n)[i] <= '9'
    ensures Decimal(n)[0] == '0' <==> n == 0
  {
    if n >= 10 {
      DecimalCanonical(n / 10);
    }
  }

  // ----------------------------------------------------------------- paths

  /** One past the last separator; 0 where there is none. */
  function NameStart(p: string): (k: nat)
    ensures k <= |p| && (k > 0 ==> p[k - 1] == '/') && forall i | k <= i < |p| :: p[i] != '/'
  {
    if p == [] then 0 else if p[|p| - 1] == '/' then |p| else NameStart(p[..|p| - 1])
  }

  /** filepath.Ext: from the last dot of the last element. */
  function Ext(p: string): (e: string)
    ensures |e| <= |p| - NameStart(p) && p[|p| - |e|..] == e
    ensures e != "" ==> e[0] == '.' && forall i | 0 < i < |e| :: e[i] != '.'
    ensures e == "" ==> forall i | NameStart(p) <= i < |p| :: p[i] != '.'
  {
    if p == [] || p[|p| - 1] == '/' then ""
    else if p[|p| - 1] == '.' then "."
    else
      var e := Ext(p[..|p| - 1]);
      if e == "" then "" else e + [p[|p| - 1]]
  }

  lemma ExtGrows(p: string, c: char)
    requires Ext(p) != "" && c != '/' && c != '.'
    ensures Ext(p + [c]) == Ext(p) + [c]
  {
    assert (p + [c])[..|p|] == p;
  }

  lemma JpgExt(stem: string)
    ensures Ext(stem + ".jpg") == ".jpg"
  {
    var dot := stem + ".";
    assert Ext(dot) == ".";
    ExtGrows(dot, 'j');
    ExtGrows(dot + "j", 'p');
    ExtGrows(dot + "j" + "p", 'g');
    assert dot + "j" + "p" + "g" == stem + ".jpg" && "." + "j" + "p" + "g" == ".jpg";
  }

  /** filepath.Dir of a clean path. */
  function Dir(p: string): string {
    var k := NameStart(p);
    if k == 0 then "." else if k == 1 then "/" else p[..k - 1]
  }

  /** filepath.Base of a clean path. */
  function Base(p: string): string {
    p[NameStart(p)..]
  }

  /** filepath.Join of a clean directory and a name. */
  function Join(dir: string, name: string): string {
    if dir == "" || dir == "." then name else if dir == "/" then "/" + name else dir + "/" + name
  }

  /** suffixedPath: "_N" goes in before the extension. */
  function SuffixedPath(p: string, n: nat): string {
    var stem := Base(p)[..|Base(p)| - |Ext(p)|];
    Join(Dir(p), stem + "_" + Decimal(n) + Ext(p))
  }

  /** The path is neither "./x" nor "//x". */
  predicate Clean(p: string) {
    NameStart(p) > 1 ==> p[..NameStart(p) - 1] != "." && p[..NameStart(p) - 1] != "/"
  }

  lemma TakeLast(p: string, k: nat)
    requires 0 < k <= |p|
    ensures p[..k] == p[..k - 1] + [p[k - 1]]
  {
  }

  lemma JoinDir(p: string, name: string)
    requires Clean(p)
    ensures Join(Dir(p), name) == p[..NameStart(p)] + name
  {
    var k := NameStart(p);
    if k > 0 {
      TakeLast(p, k);
      assert [p[k - 1]] == "/";
      assert k == 1 ==> p[..0] == "";
    } else {
      assert p[..k] == "";
    }
  }

  lemma TakeDropTake(p: string, k: nat, m: nat)
    requires k <= m <= |p|
    ensures p[..k] + p[k..][..m - k] == p[..m]
  {
  }

  lemma StemForm(p: string)
    ensures p[..NameStart(p)] + Base(p)[..|Base(p)| - |Ext(p)|] == p[..|p| - |Ext(p)|]
  {
    var k, m := NameStart(p), |p| - |Ext(p)|;
    assert |Base(p)| - |Ext(p)| == m - k;
    TakeDropTake(p, k, m);
  }

  lemma SuffixedPathForm(p: string, n: nat)
    requires Clean(p)
    ensures SuffixedPath(p, n) == p[..|p| - |Ext(p)|] + "_" + Decimal(n) + Ext(p)
  {
    var head, stem, ext := p[..NameStart(p)], Base(p)[..|Base(p)| - |Ext(p)|], Ext(p);
    var dec := Decimal(n);
    JoinDir(p, stem + "_" + dec + ext);
    StemForm(p);
    Associates(head, stem, "_" , dec, ext);
  }

  lemma Associates(a: string, b: string, c: string, d: string, e: string)
    ensures a + (b + c + d + e) == (a + b) + c + d + e
  {
  }

  /** The n-th name tried for a base name. */
  function Candidate(base: string, n: nat): string
    requires n >= 1
  {
    if n == 1 then base else SuffixedPath(base, n)
  }

  /** The second name for "a/b.jpg" is "a/b_2.jpg". */
  lemma SecondName()
    ensures Candidate("a/b.jpg", 1) == "a/b.jpg" && Candidate("a/b.jpg", 2) == "a/b_2.jpg"
  {
    JpgExt("a/b");
    assert "a/b" + ".jpg" == "a/b.jpg" && "a/b.jpg"[..3] == "a/b";
    assert "a/b.jpg"[1] == '/';
    assert NameStart("a/b.jpg") == 2;
    assert "a/b.jpg"[..1] == "a";
    SuffixedPathForm("a/b.jpg", 2);
    assert Decimal(2) == "2";
    assert "a/b" + "_" + "2" + ".jpg" == "a/b_2.jpg";
  }

  lemma CandidatesDistinct(base: string, m: nat, n: nat)
    requires Clean(base) && 1 <= m && 1 <= n && Candidate(base, m) == Candidate(base, n)
    ensures m == n
  {
    SuffixedPathForm(base, m);
    SuffixedPathForm(base, n);
    var k := |base| - |Ext(base)|;
    if m > 1 && n > 1 {
      Middle(base[..k] + "_", Decimal(m), Decimal(n), Ext(base));
      DecimalReads(m);
      DecimalReads(n);
    }
  }

  lemma Middle(a: string, x: string, y: string, b: string)
    requires a + x + b == a + y + b
    ensures x == y
  {
    assert |x| == |y|;
    assert (a + x + b)[|a|..|a| + |x|] == x;
    assert (a + y + b)[|a|..|a| + |y|] == y;
  }

  predicate EndsWith(s: string, e: string) {
    |s| >= |e| && s[|s| - |e|..] == e
  }

  predicate StartsWith(s: string, e: string) {
    |s| >= |e| && s[..|e|] == e
  }

  /** An extension decides alone whether a name ends in ".tmp". */
  lemma ExtensionTmp(s: string, e: string)
    requires e != "" && e[0] == '.' && forall i | 0 < i < |e| :: e[i] != '.'
    ensures EndsWith(s + e, ".tmp") <==> e == ".tmp"
  {
    var t := s + e;
    if EndsWith(t, ".tmp") {
      assert t[|t| - 4..] == ".tmp";
      assert t[|t| - 4] == '.' && t[|t| - 3] == 't' && t[|t| - 2] == 'm' && t[|t| - 1] == 'p';
      assert t[|s|] == '.';
      assert |s| >= |t| - 4;
      assert |s| == |t| - 4;
      assert e == t[|t| - 4..];
    }
  }

  lemma NoExtensionTmp(p: string)
    requires Ext(p) == ""
    ensures !EndsWith(p, ".tmp")
  {
    if |p| >= 4 {
      var tail := p[|p| - 4..];
      assert tail[0] == p[|p| - 4] && tail[1] == p[|p| - 3] && tail[2] == p[|p| - 2] && tail[3] == p[|p| - 1];
      var k := NameStart(p);
      assert |p| - 4 >= k || p[k - 1] == '/';
    }
  }

  lemma DigitTmp(s: string, n: nat)
    ensures !EndsWith(s + Decimal(n), ".tmp")
  {
    var t := s + Decimal(n);
    assert t[|t| - 1] == Decimal(n)[|Decimal(n)| - 1];
    DigitReads(n % 10);
    if |t| >= 4 {
      assert t[|t| - 4..][3] == t[|t| - 1];
    }
  }

  /** A clean path ends in ".tmp" exactly when that is its extension. */
  lemma BaseTmp(base: string)
    ensures EndsWith(base, ".tmp") <==> Ext(base) == ".tmp"
  {
    var e := Ext(base);
    if e == "" {
      NoExtensionTmp(base);
    } else {
      ExtensionTmp(base[..|base| - |e|], e);
      assert base[..|base| - |e|] + e == base;
    }
  }

  lemma SuffixedTmp(stem: string, n: nat, e: string)
    requires e != "" ==> e[0] == '.' && forall i | 0 < i < |e| :: e[i] != '.'
    ensures EndsWith(stem + "_" + Decimal(n) + e, ".tmp") <==> e == ".tmp"
  {
    if e == "" {
      DigitTmp(stem + "_", n);
      assert stem + "_" + Decimal(n) + e == stem + "_" + Decimal(n);
    } else {
      ExtensionTmp(stem + "_" + Decimal(n), e);
    }
  }

  /** The suffix never adds or removes a ".tmp" ending. */
  lemma CandidateTmp(base: string, n: nat)
    requires Clean(base) && n >= 1
    ensures EndsWith(Candidate(base, n), ".tmp") <==> EndsWith(base, ".tmp")
  {
    if n > 1 {
      var e, c := Ext(base), Candidate(base, n);
      var stem := base[..|base| - |e|];
      assert c == stem + "_" + Decimal(n) + e by {
        SuffixedPathForm(base, n);
      }
      assert EndsWith(c, ".tmp") <==> e == ".tmp" by {
        SuffixedTmp(stem, n, e);
      }
      assert EndsWith(base, ".tmp") <==> e == ".tmp" by {
        BaseTmp(base);
      }
    }
  }

  // ----------------------------------------------------------- containment

  /** isUnder of two clean paths. */
  predicate IsUnder(parent: string, child: string) {
    StartsWith(child + "/", parent + "/")
  }

  /** A path is under another exactly when it lies below it or is the same path. */
  lemma IsUnderIff(parent: string, child: string)
    ensures IsUnder(parent, child) <==> child == parent || StartsWith(child, parent + "/")
  {
    var c, p := child + "/", parent + "/";
    if IsUnder(parent, child) {
      if |c| == |p| {
        assert c[..|p|] == c;
        assert child == c[..|child|] && parent == p[..|parent|];
      } else {
        assert child[..|p|] == c[..|p|];
      }
    }
    if StartsWith(child, p) {
      assert c[..|p|] == child[..|p|];
    }
  }
}
