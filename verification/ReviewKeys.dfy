/** The keys of review feedback: the table's own, and the string under which a sync looks a record up, in which the parts of the
    key are joined by bars. */
module ReviewKeys {
  import Lex

  datatype SourceType = ReviewComment | TopLevelReview

  /** The table's primary key within a run. Pull requests and comments are numbered. */
  datatype Key = Key(ticket: string, repo: string, prNumber: int, sourceType: SourceType, sourceId: int)

  function TypeName(t: SourceType): (name: string)
    ensures '|' !in name
  {
    match t
    case ReviewComment => "pr_review_comment"
    case TopLevelReview => "pr_review"
  }

  function Digit(d: nat): char
    requires d < 10
  {
    "0123456789"[d]
  }

  /** strconv.Itoa. */
  function Decimal(n: int): string {
    if n < 0 then "-" + Digits(-n) else Digits(n)
  }

  function Digits(n: nat): (s: string)
    ensures |s| > 0 && (n >= 10 ==> |s| > 1) && forall c :: c in s ==> '0' <= c <= '9'
  {
    if n < 10 then [Digit(n)] else Digits(n / 10) + [Digit(n % 10)]
  }

  lemma {:induction false} DigitsAreUnique(m: nat, n: nat)
    requires Digits(m) == Digits(n)
    ensures m == n
  {
    var s := Digits(m);
    assert s[|s| - 1] == Digit(m % 10) && s[|s| - 1] == Digit(n % 10);
    if m >= 10 {
      assert s[..|s| - 1] == Digits(m / 10) && s[..|s| - 1] == Digits(n / 10);
      DigitsAreUnique(m / 10, n / 10);
    }
  }

  /** The sign is the first character, and the digits are the rest. */
  lemma SignShows(n: int)
    ensures var s := Decimal(n);
            '|' !in s && |s| > 0 && (s[0] == '-' <==> n < 0) && Digits(if n < 0 then -n else n) == if s[0] == '-' then s[1..] else s
  {
    if n >= 0 { assert Digits(n)[0] in Digits(n); }
  }

  lemma DecimalIsUnique(m: int, n: int)
    ensures Decimal(m) == Decimal(n) <==> m == n
  {
    SignShows(m);
    SignShows(n);
    if Decimal(m) == Decimal(n) {
      DigitsAreUnique(if m < 0 then -m else m, if n < 0 then -n else n);
    }
  }

  function Bar(a: string, b: string): string {
    a + "|" + b
  }

  /** What a bar joins can be told apart again when nothing with a bar comes after it. */
  lemma LastBar(a: string, b: string, c: string, d: string)
    requires '|' !in b && '|' !in d
    ensures Bar(a, b) == Bar(c, d) <==> a == c && b == d
  {
    if Bar(a, b) == Bar(c, d) {
      var s := Bar(a, b);
      assert s[|a|] == '|' && s[|c|] == '|';
      assert forall i :: |a| < i < |s| ==> s[i] == b[i - |a| - 1];
      assert forall i :: |c| < i < |s| ==> s[i] == d[i - |c| - 1];
      assert |a| == |c|;
      assert s[..|a|] == a && s[..|c|] == c && s[|a| + 1..] == b && s[|c| + 1..] == d;
    }
  }

  function Names(key: Key): string {
    Bar(key.ticket, key.repo)
  }

  /** runReviewFeedbackKey. */
  function Joined(key: Key): string {
    Bar(Bar(Bar(Names(key), Decimal(key.prNumber)), TypeName(key.sourceType)), Decimal(key.sourceId))
  }

  /** What a joined string tells of a key: the numbers and the type, but ticket and repository only together. */
  datatype Joint = Joint(names: string, prNumber: int, sourceType: SourceType, sourceId: int)

  function JointOf(key: Key): Joint {
    Joint(Names(key), key.prNumber, key.sourceType, key.sourceId)
  }

  /** So a lookup by the joined string is a lookup by the joint. */
  lemma JoinedExactly(k: Key, l: Key)
    ensures Joined(k) == Joined(l) <==> JointOf(k) == JointOf(l)
  {
    DecimalIsUnique(k.prNumber, l.prNumber);
    DecimalIsUnique(k.sourceId, l.sourceId);
    SignShows(k.prNumber);
    SignShows(l.prNumber);
    SignShows(k.sourceId);
    SignShows(l.sourceId);
    var a, b := Bar(Names(k), Decimal(k.prNumber)), Bar(Names(l), Decimal(l.prNumber));
    LastBar(Names(k), Decimal(k.prNumber), Names(l), Decimal(l.prNumber));
    LastBar(a, TypeName(k.sourceType), b, TypeName(l.sourceType));
    LastBar(Bar(a, TypeName(k.sourceType)), Decimal(k.sourceId), Bar(b, TypeName(l.sourceType)), Decimal(l.sourceId));
    assert k.sourceType != l.sourceType ==> |TypeName(k.sourceType)| != |TypeName(l.sourceType)|;
  }

  /** Two pairs of ticket and repository join alike exactly when they are the same, or a bar can move: the longer ticket is the
      shorter one, a bar and a segment, and the segment and a bar begin the other repository. */
  lemma NamesCollideExactly(k: Key, l: Key)
    requires |k.ticket| <= |l.ticket|
    ensures Names(k) == Names(l) <==>
            || (k.ticket == l.ticket && k.repo == l.repo)
            || exists segment: string :: l.ticket == Bar(k.ticket, segment) && k.repo == Bar(segment, l.repo)
  {
    var n, m := |k.ticket|, |l.ticket|;
    if Names(k) == Names(l) {
      var s := Names(k);
      assert s[..n] == k.ticket && s[n] == '|' && s[n + 1..] == k.repo;
      assert s[..m] == l.ticket && s[m] == '|' && s[m + 1..] == l.repo;
      if n < m {
        var segment := s[n + 1..m];
        assert l.ticket == Bar(k.ticket, segment);
        assert k.repo == Bar(segment, l.repo);
      }
    }
    forall segment: string | l.ticket == Bar(k.ticket, segment) && k.repo == Bar(segment, l.repo)
      ensures Names(k) == Names(l)
    {
      assert Names(k) == k.ticket + "|" + segment + "|" + l.repo == Names(l);
    }
  }

  /** Keys of one joint: the tickets are told apart by their length, and the byte order goes by it. */
  lemma LongerIsLater(k: Key, l: Key)
    requires JointOf(k) == JointOf(l)
    ensures |k.ticket| == |l.ticket| <==> k == l
    ensures |k.ticket| < |l.ticket| <==> Lex.Less(k.ticket, l.ticket)
  {
    var s := Names(k);
    assert s[..|k.ticket|] == k.ticket && s[..|l.ticket|] == l.ticket;
    assert s[|k.ticket| + 1..] == k.repo && s[|l.ticket| + 1..] == l.repo;
    Lex.LessTotal(k.ticket, l.ticket);
    if |k.ticket| < |l.ticket| { PrefixIsLess(k.ticket, l.ticket); }
    if |l.ticket| < |k.ticket| { PrefixIsLess(l.ticket, k.ticket); }
  }

  lemma {:induction false} PrefixIsLess(a: string, b: string)
    requires a < b
    ensures Lex.Less(a, b)
  {
    if |a| > 0 { PrefixIsLess(a[1..], b[1..]); }
  }

  predicate BarFree(key: Key) {
    '|' !in key.ticket && '|' !in key.repo
  }

  /** A key without bars shares its joint with no other key. */
  lemma BarFreeIsAlone(k: Key, l: Key)
    requires BarFree(k) && JointOf(k) == JointOf(l)
    ensures k == l
  {
    var s := Names(k);
    assert forall i :: 0 <= i < |s| && s[i] == '|' ==> i == |k.ticket|;
    assert s[|l.ticket|] == '|';
    assert s[..|k.ticket|] == k.ticket && s[..|l.ticket|] == l.ticket;
    assert s[|k.ticket| + 1..] == k.repo && s[|l.ticket| + 1..] == l.repo;
  }
}
