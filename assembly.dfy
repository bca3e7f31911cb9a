/**
 * The text assembler: `prepare_article_text` builds the summariser's input by
 * joining, with one space, whichever of title, description and content are
 * truthy after `.get(key, '')`.
 */
module TextAssembly {
  import opened News

  /** The three `.get(key, '')` results, in the order title, description, content. */
  function Sections(a: Article): seq<PyStr> {
    [Get(a.title), Get(a.description), Get(a.content)]
  }

  /** The list comprehension that keeps only the truthy sections, in order. */
  function KeepTruthy(ss: seq<PyStr>): (r: seq<string>)
    ensures |r| <= |ss|
    ensures forall i :: 0 <= i < |r| ==> r[i] != ""
    ensures r == [] <==> forall j :: 0 <= j < |ss| ==> !Truthy(ss[j])
  {
    if ss == [] then []
    else (if Truthy(ss[0]) then [ss[0].s] else []) + KeepTruthy(ss[1..])
  }

  function SumLengths(parts: seq<string>): nat {
    if parts == [] then 0 else |parts[0]| + SumLengths(parts[1..])
  }

  /** Python's `' '.join(parts)`: the parts with one space between neighbours. */
  function Join(parts: seq<string>): (r: string)
    ensures parts == [] ==> r == ""
    ensures parts != [] ==> |r| == SumLengths(parts) + |parts| - 1
    ensures parts != [] ==> r[..|parts[0]|] == parts[0]
  {
    if parts == [] then ""
    else if |parts| == 1 then parts[0]
    else parts[0] + " " + Join(parts[1..])
  }


  /** The texts of the fields that carry text, in the order title, description, content. */
  function PresentTexts(a: Article): seq<string> {
    (if Present(a.title) then [a.title.s] else [])
    + (if Present(a.description) then [a.description.s] else [])
    + (if Present(a.content) then [a.content.s] else [])
  }

  /** Length a field contributes to the assembled text, separators aside. */
  function PresentLength(f: Field): nat {
    if Present(f) then |f.s| else 0
  }

  /** Number of fields of `a` that carry text. */
  function PresentCount(a: Article): nat {
    (if Present(a.title) then 1 else 0)
    + (if Present(a.description) then 1 else 0)
    + (if Present(a.content) then 1 else 0)
  }

  /** Two fields the assembler cannot tell apart. */
  predicate SameText(f: Field, g: Field) {
    Present(f) == Present(g) && (Present(f) ==> f.s == g.s)
  }

  lemma KeptSectionsArePresentTexts(a: Article)
    ensures KeepTruthy(Sections(a)) == PresentTexts(a)
  {
    var ss := Sections(a);
    var t := if Present(a.title) then [a.title.s] else [];
    var d := if Present(a.description) then [a.description.s] else [];
    var c := if Present(a.content) then [a.content.s] else [];
    assert ss[1..][1..][1..] == [];
    assert KeepTruthy(ss[1..][1..]) == c + KeepTruthy(ss[1..][1..][1..]) == c;
    assert KeepTruthy(ss[1..]) == d + KeepTruthy(ss[1..][1..]) == d + c;
    assert KeepTruthy(ss) == t + KeepTruthy(ss[1..]) == t + (d + c);
  }

  /**
   * `prepare_article_text(article)`: the texts of the non-empty fields, in the
   * order title, description, content, joined by single spaces; missing, null
   * and empty fields are skipped, and a non-empty title starts the text.
   */
  function PrepareArticleText(a: Article): (r: string)
    ensures r == Join(PresentTexts(a))
    ensures Present(a.title) ==> r[..|a.title.s|] == a.title.s
  {
    KeptSectionsArePresentTexts(a);
    Join(KeepTruthy(Sections(a)))
  }

  /** The assembled text is empty exactly when no field carries text. */
  lemma {:induction false} EmptyIffNoText(a: Article)
    ensures PrepareArticleText(a) == ""
        <==> !Present(a.title) && !Present(a.description) && !Present(a.content)
  {
  }

  /** With only a title, the assembled text is the title itself, with no added space. */
  lemma {:induction false} OnlyTitle(a: Article)
    requires Present(a.title) && !Present(a.description) && !Present(a.content)
    ensures PrepareArticleText(a) == a.title.s
  {
  }

  /** With all three fields, they appear untrimmed, separated by exactly one space each. */
  lemma {:induction false} AllThreeFields(a: Article)
    requires Present(a.title) && Present(a.description) && Present(a.content)
    ensures PrepareArticleText(a) == a.title.s + " " + a.description.s + " " + a.content.s
  {
    KeptSectionsArePresentTexts(a);
    var parts := PresentTexts(a);
    assert parts == [a.title.s, a.description.s, a.content.s];
    JoinCons(a.description.s, [a.content.s]);
    JoinCons(a.title.s, [a.description.s, a.content.s]);
    assert [a.title.s] + [a.description.s, a.content.s] == parts;
    assert [a.description.s] + [a.content.s] == [a.description.s, a.content.s];
  }

  lemma {:induction false} SumLengthsAppend(xs: seq<string>, ys: seq<string>)
    ensures SumLengths(xs + ys) == SumLengths(xs) + SumLengths(ys)
  {
    if xs != [] {
      assert (xs + ys)[1..] == xs[1..] + ys;
      SumLengthsAppend(xs[1..], ys);
    } else {
      assert xs + ys == ys;
    }
  }

  /**
   * With k >= 1 fields carrying text, the assembled text is as long as those
   * fields together plus k - 1 separating spaces.
   */
  lemma {:induction false} AssembledLength(a: Article)
    ensures PresentCount(a) == 0 ==> |PrepareArticleText(a)| == 0
    ensures PresentCount(a) >= 1 ==>
      |PrepareArticleText(a)|
        == PresentLength(a.title) + PresentLength(a.description) + PresentLength(a.content)
           + PresentCount(a) - 1
  {
    KeptSectionsArePresentTexts(a);
    var t := if Present(a.title) then [a.title.s] else [];
    var d := if Present(a.description) then [a.description.s] else [];
    var c := if Present(a.content) then [a.content.s] else [];
    assert PresentTexts(a) == t + d + c;
    SumLengthsAppend(t + d, c);
    SumLengthsAppend(t, d);
    assert SumLengths(t) == PresentLength(a.title);
    assert SumLengths(d) == PresentLength(a.description);
    assert SumLengths(c) == PresentLength(a.content);
  }

  /**
   * A missing key, a null value and an empty string are interchangeable: two
   * articles whose fields carry the same texts assemble to the same string.
   */
  lemma {:induction false} BlankFieldsInterchangeable(a: Article, b: Article)
    requires SameText(a.title, b.title)
    requires SameText(a.description, b.description)
    requires SameText(a.content, b.content)
    ensures PrepareArticleText(a) == PrepareArticleText(b)
  {
  }

  /** The special case of `.get(key, '')`: an absent key reads as an empty string. */
  lemma {:induction false} MissingKeyLikeEmptyString(a: Article)
    ensures PrepareArticleText(a.(title := Missing)) == PrepareArticleText(a.(title := Text("")))
    ensures PrepareArticleText(a.(description := Missing)) == PrepareArticleText(a.(description := Text("")))
    ensures PrepareArticleText(a.(content := Missing)) == PrepareArticleText(a.(content := Text("")))
  {
    BlankFieldsInterchangeable(a.(title := Missing), a.(title := Text("")));
    BlankFieldsInterchangeable(a.(description := Missing), a.(description := Text("")));
    BlankFieldsInterchangeable(a.(content := Missing), a.(content := Text("")));
  }

  // An independent reference: assemble the text one section at a time.

  /** Extend the text built so far by one section, adding a space only between two texts. */
  function AppendSection(acc: string, v: PyStr): string {
    if !Truthy(v) then acc
    else if acc == "" then v.s
    else acc + " " + v.s
  }

  function AppendAll(acc: string, ss: seq<PyStr>): string
    decreases |ss|
  {
    if ss == [] then acc else AppendAll(AppendSection(acc, ss[0]), ss[1..])
  }

  function NonEmpty(s: string): seq<string> {
    if s == "" then [] else [s]
  }

  lemma {:induction false} JoinCons(x: string, rest: seq<string>)
    requires rest != []
    ensures Join([x] + rest) == x + " " + Join(rest)
  {
    assert ([x] + rest)[1..] == rest;
  }

  lemma {:induction false} AppendAllIsJoin(acc: string, ss: seq<PyStr>)
    ensures AppendAll(acc, ss) == Join(NonEmpty(acc) + KeepTruthy(ss))
    decreases |ss|
  {
    if ss == [] {
      assert NonEmpty(acc) + KeepTruthy(ss) == NonEmpty(acc);
    } else {
      var v, rest := ss[0], ss[1..];
      var acc' := AppendSection(acc, v);
      AppendAllIsJoin(acc', rest);
      var tail := KeepTruthy(rest);
      if !Truthy(v) {
        assert KeepTruthy(ss) == tail;
      } else {
        assert KeepTruthy(ss) == [v.s] + tail;
        if acc == "" {
          assert NonEmpty(acc) + KeepTruthy(ss) == NonEmpty(acc') + tail;
        } else {
          assert NonEmpty(acc') == [acc + " " + v.s];
          assert NonEmpty(acc) + KeepTruthy(ss) == [acc] + ([v.s] + tail);
          JoinCons(acc, [v.s] + tail);
          if tail == [] {
            assert NonEmpty(acc') + tail == [acc + " " + v.s];
          } else {
            JoinCons(v.s, tail);
            JoinCons(acc + " " + v.s, tail);
          }
        }
      }
    }
  }

  /**
   * `' '.join` over the filtered sections agrees with appending the sections
   * one at a time, skipping the falsy ones.
   */
  lemma {:induction false} AssembledIncrementally(a: Article)
    ensures PrepareArticleText(a) == AppendAll("", Sections(a))
  {
    AppendAllIsJoin("", Sections(a));
    assert NonEmpty("") + KeepTruthy(Sections(a)) == KeepTruthy(Sections(a));
  }
}
