/** The search of `post_question`: questions whose text matches
    `ILIKE '%<term>%'`, ordered by id. The term is placed into the LIKE
    pattern as it is, so `%`, `_` and `\` inside it keep their LIKE meaning. */
module Search {
  import opened Questions

  /** Case folding used by ILIKE, over ASCII letters. */
  function Lower(c: char): char {
    if 'A' <= c <= 'Z' then (c as int + 32) as char else c
  }

  /** `term` occurs in `text` starting at position `i`, ignoring the case of letters. */
  predicate OccursAt(text: string, term: string, i: int) {
    0 <= i && i + |term| <= |text| && forall k :: 0 <= k < |term| ==> Lower(text[i + k]) == Lower(term[k])
  }

  /** `term` occurs in `text`, ignoring the case of letters. */
  predicate ContainsIgnoringCase(text: string, term: string) {
    exists i :: 0 <= i <= |text| && OccursAt(text, term, i)
  }

  /** A LIKE pattern element: a literal character, `_` or `%`. */
  datatype Token = Literal(c: char) | AnyChar | AnyRun

  /** Reads a LIKE pattern; `\` quotes the character after it, and a
      pattern ending in a lone `\` is rejected by the database (None). */
  function Tokens(p: string): Option<seq<Token>>
    decreases |p|
  {
    if p == [] then Some([])
    else if p[0] == '\\' then
      if |p| == 1 then None
      else match Tokens(p[2..])
        case None => None
        case Some(t) => Some([Literal(p[1])] + t)
    else
      var tok := if p[0] == '%' then AnyRun else if p[0] == '_' then AnyChar else Literal(p[0]);
      match Tokens(p[1..])
      case None => None
      case Some(t) => Some([tok] + t)
  }

  /** `text` matches the pattern, ignoring case. */
  predicate Matches(text: string, toks: seq<Token>)
    decreases |toks|, |text|
  {
    if toks == [] then text == []
    else match toks[0]
      case Literal(c) => text != [] && Lower(text[0]) == Lower(c) && Matches(text[1..], toks[1..])
      case AnyChar => text != [] && Matches(text[1..], toks[1..])
      case AnyRun => Matches(text, toks[1..]) || (text != [] && Matches(text[1..], toks))
  }

  /** The pattern `'%{}%'.format(term)`. */
  function SearchPattern(term: string): string {
    "%" + term + "%"
  }

  /** `Question.query.order_by(Question.id).filter(Question.question.ilike(pattern))`
      over the store `qs`; None when the database rejects the pattern. */
  function SearchResults(qs: seq<Question>, term: string): Option<seq<Question>> {
    match Tokens(SearchPattern(term))
    case None => None
    case Some(toks) => Some(Select(qs, (q: Question) => Matches(q.question, toks)))
  }

  /** A term without `%`, `_` or `\`. */
  predicate PlainTerm(term: string) {
    forall i :: 0 <= i < |term| ==> term[i] != '%' && term[i] != '_' && term[i] != '\\'
  }

  function Literals(term: string): (r: seq<Token>)
    ensures |r| == |term|
  {
    seq(|term|, i requires 0 <= i < |term| => Literal(term[i]))
  }

  /** Any pattern that ends in `%` is accepted, whatever precedes it: a
      trailing `\` in the term quotes that `%` instead of dangling. */
  lemma {:induction false} EndsInPercentIsWellFormed(p: string)
    ensures Tokens(p + "%").Some?
    decreases |p|
  {
    var q := p + "%";
    if p != [] {
      if p[0] == '\\' {
        if |p| > 1 {
          assert q[2..] == p[2..] + "%";
          EndsInPercentIsWellFormed(p[2..]);
        } else {
          assert q[2..] == [];
        }
      } else {
        assert q[1..] == p[1..] + "%";
        EndsInPercentIsWellFormed(p[1..]);
      }
    }
  }

  /** The search pattern is always well formed, so the search itself never
      fails on the pattern. */
  lemma SearchPatternWellFormed(term: string)
    ensures Tokens(SearchPattern(term)).Some?
  {
    EndsInPercentIsWellFormed("%" + term);
    assert SearchPattern(term) == ("%" + term) + "%";
  }

  lemma {:induction false} PlainTokens(term: string)
    requires PlainTerm(term)
    ensures Tokens(term + "%") == Some(Literals(term) + [AnyRun])
  {
    if term != [] {
      assert (term + "%")[0] == term[0];
      assert (term + "%")[1..] == term[1..] + "%";
      assert PlainTerm(term[1..]) by {
        forall i | 0 <= i < |term[1..]| ensures term[1..][i] == term[i + 1] { }
      }
      PlainTokens(term[1..]);
      assert Literals(term) == [Literal(term[0])] + Literals(term[1..]);
      assert [Literal(term[0])] + (Literals(term[1..]) + [AnyRun]) == Literals(term) + [AnyRun];
    } else {
      assert term + "%" == "%" && "%"[1..] == "";
      assert Literals(term) + [AnyRun] == [AnyRun] + [];
    }
  }

  lemma {:induction false} RunMatchesAll(text: string)
    ensures Matches(text, [AnyRun])
  {
    if text != [] {
      RunMatchesAll(text[1..]);
    }
  }

  /** Literals followed by `%` match exactly the texts that start with the
      term, ignoring case. */
  lemma {:induction false} LiteralsThenRun(text: string, term: string)
    ensures Matches(text, Literals(term) + [AnyRun]) <==> OccursAt(text, term, 0)
  {
    var toks := Literals(term) + [AnyRun];
    if term == [] {
      assert toks == [AnyRun];
      RunMatchesAll(text);
    } else {
      assert toks[0] == Literal(term[0]);
      assert toks[1..] == Literals(term[1..]) + [AnyRun];
      if text != [] {
        LiteralsThenRun(text[1..], term[1..]);
        if OccursAt(text, term, 0) {
          forall k | 0 <= k < |term[1..]| ensures Lower(text[1..][k]) == Lower(term[1..][k]) {
            assert Lower(text[k + 1]) == Lower(term[k + 1]);
          }
        }
        if Lower(text[0]) == Lower(term[0]) && OccursAt(text[1..], term[1..], 0) {
          forall k | 0 <= k < |term| ensures Lower(text[k]) == Lower(term[k]) {
            if k > 0 {
              assert Lower(text[1..][k - 1]) == Lower(term[1..][k - 1]);
            }
          }
        }
      }
    }
  }

  /** A leading `%` lets the rest match any suffix. */
  lemma {:induction false} LeadingRun(text: string, rest: seq<Token>)
    ensures Matches(text, [AnyRun] + rest) <==> exists i :: 0 <= i <= |text| && Matches(text[i..], rest)
  {
    var toks := [AnyRun] + rest;
    assert toks[1..] == rest;
    assert text[0..] == text;
    if text != [] {
      LeadingRun(text[1..], rest);
      if exists i :: 0 <= i <= |text| && Matches(text[i..], rest) {
        var i :| 0 <= i <= |text| && Matches(text[i..], rest);
        if i > 0 {
          assert text[1..][i - 1..] == text[i..];
        }
      }
      if exists i :: 0 <= i <= |text[1..]| && Matches(text[1..][i..], rest) {
        var i :| 0 <= i <= |text[1..]| && Matches(text[1..][i..], rest);
        assert text[1..][i..] == text[i + 1..];
      }
    }
  }

  /** For a term without wildcards, the search pattern matches exactly the
      texts that contain the term, ignoring case. */
  lemma PlainSearchIsContainment(text: string, term: string)
    requires PlainTerm(term)
    ensures Tokens(SearchPattern(term)) == Some([AnyRun] + Literals(term) + [AnyRun])
    ensures Matches(text, [AnyRun] + Literals(term) + [AnyRun]) <==> ContainsIgnoringCase(text, term)
  {
    PlainTokens(term);
    assert SearchPattern(term)[1..] == term + "%";
    var rest := Literals(term) + [AnyRun];
    assert [AnyRun] + Literals(term) + [AnyRun] == [AnyRun] + rest;
    LeadingRun(text, rest);
    forall i | 0 <= i <= |text|
      ensures Matches(text[i..], rest) <==> OccursAt(text, term, i)
    {
      LiteralsThenRun(text[i..], term);
      assert forall k :: 0 <= k < |text[i..]| ==> text[i..][k] == text[i + k];
    }
  }

  /** For a term without wildcards, the search returns exactly the stored
      questions whose text contains the term, ignoring case, in id order. */
  lemma SearchPlainTerm(qs: seq<Question>, term: string)
    requires IdsAscending(qs)
    requires PlainTerm(term)
    ensures SearchResults(qs, term).Some?
    ensures forall q ::
      q in SearchResults(qs, term).value <==> q in qs && ContainsIgnoringCase(q.question, term)
    ensures IdsAscending(SearchResults(qs, term).value)
  {
    var toks := [AnyRun] + Literals(term) + [AnyRun];
    PlainSearchIsContainment([], term);
    forall q | q in qs ensures Matches(q.question, toks) <==> ContainsIgnoringCase(q.question, term) {
      PlainSearchIsContainment(q.question, term);
    }
    SelectAscending(qs, (q: Question) => Matches(q.question, toks));
  }

  /** The term `%` is not searched for literally: it matches every question. */
  lemma PercentMatchesEverything(qs: seq<Question>)
    ensures SearchResults(qs, "%") == Some(qs)
  {
    var toks := [AnyRun, AnyRun, AnyRun];
    assert SearchPattern("%") == "%%%";
    assert Tokens("%%%") == Some(toks) by {
      assert Tokens("") == Some([]);
      assert "%"[1..] == "";
      assert [AnyRun] + [] == [AnyRun];
      assert Tokens("%") == Some([AnyRun]);
      assert "%%"[1..] == "%";
      assert [AnyRun] + [AnyRun] == [AnyRun, AnyRun];
      assert Tokens("%%") == Some([AnyRun, AnyRun]);
      assert "%%%"[1..] == "%%";
      assert [AnyRun] + [AnyRun, AnyRun] == toks;
    }
    forall q | q in qs ensures Matches(q.question, toks) {
      RunMatchesAll(q.question);
      LeadingRun(q.question, [AnyRun]);
      assert q.question[0..] == q.question;
      assert toks == [AnyRun] + ([AnyRun] + [AnyRun]);
      LeadingRun(q.question, [AnyRun, AnyRun]);
    }
    SelectAll(qs, (q: Question) => Matches(q.question, toks));
  }

  lemma {:induction false} SelectAll(qs: seq<Question>, keep: Question -> bool)
    requires forall q :: q in qs ==> keep(q)
    ensures Select(qs, keep) == qs
  {
    if qs != [] {
      assert forall q :: q in qs[1..] ==> q in qs;
      SelectAll(qs[1..], keep);
      assert qs == [qs[0]] + qs[1..];
    }
  }
}
