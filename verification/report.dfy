/**
 * The consultation report, abstracted from the PDF canvas: the renderer is a
 * function from the consultation to the list of text-drawing commands it
 * issues, each with its page, its position and what it draws. Coordinates
 * are in points with the origin at the bottom left, as on the canvas.
 */
module Report {
  import opened Base
  import opened Catalogue

  /** Page margin; also the x of every left-hand line. */
  const Margin: real := 40.0
  /** A bullet is only drawn at or above this y; below it a new page starts. */
  const Threshold: real := Margin + 50.0
  /** Vertical step after each comorbidity line. */
  const LineStep: real := 14.0
  /** Vertical step after the continuation caption of a new page. */
  const HeaderStep: real := 20.0
  /** The y of the "generated at" footer. */
  const FooterY: real := Margin + 30.0
  /** The x of the bullets and of the "none identified" line. */
  const BulletX: real := Margin + 10.0

  /** A4 in points (21 cm by 29.7 cm at 72 points per 2.54 cm), exactly. */
  const A4Width: real := 75600.0 / 127.0
  const A4Height: real := 106920.0 / 127.0

  const ContinuationCaption: string := "Comorbidades Identificadas (continuação):"
  const NoneIdentified: string := "Nenhuma comorbidade identificada"

  /** What a drawing command writes. The numeric fields' formatting is not
      modelled; a field line is named by its caption. */
  datatype Content =
    | Caption(caption: string)
    | Field(name: string)
    | SexField(word: string)
    | Bullet(item: string)
    | GeneratedAt

  datatype Draw = Draw(page: nat, x: real, y: real, text: Content)

  /** The y at which the comorbidity block starts on the first page. */
  function ListTop(h: real): (y: real)
    ensures y + HeaderStep == h - 205.0
    ensures y < FreshTop(h)
  {
    h - Margin - 185.0
  }

  /** The y of the first bullet on a continuation page. */
  function FreshTop(h: real): (y: real)
    ensures y + HeaderStep == h - Margin
  {
    h - Margin - HeaderStep
  }

  /** The word the report prints for the sex slot of the row. */
  function SexWord(code: real): (w: string)
    ensures w == "Masculino" <==> code == 1.0
    ensures w == "Masculino" || w == "Feminino"
  {
    if code == 1.0 then "Masculino" else "Feminino"
  }

  /** The fixed part of the first page: title, patient data, result and the
      comorbidity heading, each line `step` below the previous one. */
  function Header(sexCode: real, h: real, w: real): (draws: seq<Draw>)
    ensures forall i :: 0 <= i < |draws| ==> draws[i].page == 0 && !draws[i].text.Bullet?
    ensures forall i :: 0 <= i < |draws| ==> ListTop(h) < draws[i].y
  {
    [ Draw(0, Margin, h - 40.0, Caption("Relatório de Consulta - Avaliação de Risco de Diabetes")),
      Draw(0, Margin, h - 70.0, Caption("Dados do Paciente:")),
      Draw(0, Margin, h - 90.0, Field("Nome")),
      Draw(0, w / 2.0, h - 90.0, Field("Data da Consulta")),
      Draw(0, Margin, h - 105.0, Field("Idade")),
      Draw(0, w / 2.0, h - 105.0, SexField(SexWord(sexCode))),
      Draw(0, Margin, h - 120.0, Field("Altura")),
      Draw(0, w / 2.0, h - 120.0, Field("Peso")),
      Draw(0, Margin, h - 135.0, Field("IMC")),
      Draw(0, Margin, h - 160.0, Caption("Resultado da Avaliação:")),
      Draw(0, Margin, h - 180.0, Field("Probabilidade de Diabetes Tipo 2")),
      Draw(0, Margin, h - 205.0, Caption("Comorbidades Identificadas:")) ]
  }

  /** Where one bullet goes: on a new page (after a continuation caption)
      or on the current one. */
  datatype Placement = Placement(opensPage: bool, page: nat, y: real, item: string)

  /** One step of the cursor: with the cursor at `cursor` on `page`, a bullet
      opens a new page exactly when the cursor is below the threshold. */
  predicate Step(page: nat, cursor: real, p: Placement, h: real) {
    && p.opensPage == (cursor < Threshold)
    && (if p.opensPage then p.page == page + 1 && p.y == FreshTop(h)
        else p.page == page && p.y == cursor)
  }

  /** The pagination loop: every item placed once, in order, each step
      taken from the cursor the previous bullet left behind. */
  function Place(items: seq<string>, page: nat, cursor: real, h: real): (ps: seq<Placement>)
    ensures |ps| == |items|
    ensures forall i :: 0 <= i < |ps| ==> ps[i].item == items[i]
    ensures |ps| > 0 ==> Step(page, cursor, ps[0], h)
    ensures forall i :: 0 < i < |ps| ==> Step(ps[i - 1].page, ps[i - 1].y - LineStep, ps[i], h)
    decreases |items|
  {
    if items == [] then []
    else
      var p := if cursor < Threshold then Placement(true, page + 1, FreshTop(h), items[0])
               else Placement(false, page, cursor, items[0]);
      [p] + Place(items[1..], p.page, p.y - LineStep, h)
  }

  /** Number of new pages opened among the first `n` placements. */
  function FreshCount(ps: seq<Placement>, n: nat): nat
    requires n <= |ps|
  {
    if n == 0 then 0 else FreshCount(ps, n - 1) + (if ps[n - 1].opensPage then 1 else 0)
  }

  /** Bullet `i` sits on the starting page plus the number of page breaks up
      to and including it, so pages never go back and never skip. */
  lemma {:induction false} PagesCountBreaks(items: seq<string>, page: nat, cursor: real, h: real, i: nat)
    requires i < |items|
    ensures Place(items, page, cursor, h)[i].page == page + FreshCount(Place(items, page, cursor, h), i + 1)
  {
    if i > 0 {
      PagesCountBreaks(items, page, cursor, h, i - 1);
    }
  }

  /** Pages ascend along the list. */
  lemma {:induction false} PagesAscend(items: seq<string>, page: nat, cursor: real, h: real, i: nat, j: nat)
    requires i <= j < |items|
    ensures page <= Place(items, page, cursor, h)[i].page <= Place(items, page, cursor, h)[j].page
    decreases j
  {
    var ps := Place(items, page, cursor, h);
    if j > 0 {
      PagesAscend(items, page, cursor, h, if i < j then i else j - 1, j - 1);
      assert Step(ps[j - 1].page, ps[j - 1].y - LineStep, ps[j], h);
    }
  }

  /** On a page tall enough for one bullet below the continuation caption,
      no bullet is ever drawn below the threshold, and none above the
      higher of the starting cursor and a new page's top line. */
  lemma {:induction false} NoBulletBelowThreshold(items: seq<string>, page: nat, cursor: real, h: real, i: nat)
    requires Threshold <= FreshTop(h)
    requires i < |items|
    ensures var p := Place(items, page, cursor, h)[i];
            Threshold <= p.y && (p.y <= cursor || p.y <= FreshTop(h))
    decreases i
  {
    var ps := Place(items, page, cursor, h);
    if i > 0 {
      NoBulletBelowThreshold(items, page, cursor, h, i - 1);
      assert Step(ps[i - 1].page, ps[i - 1].y - LineStep, ps[i], h);
    }
  }

  /** While the cursor stays at or above the threshold, bullets run down one
      page `LineStep` apart without a break. */
  lemma {:induction false} RunOnOnePage(items: seq<string>, page: nat, cursor: real, h: real, n: nat)
    requires n <= |items|
    requires n > 0 ==> cursor - LineStep * (n - 1) as real >= Threshold
    ensures forall i :: 0 <= i < n ==>
              && !Place(items, page, cursor, h)[i].opensPage
              && Place(items, page, cursor, h)[i].page == page
              && Place(items, page, cursor, h)[i].y == cursor - LineStep * i as real
  {
    if n > 0 {
      var ps := Place(items, page, cursor, h);
      RunOnOnePage(items, page, cursor, h, n - 1);
      if n > 1 {
        assert Step(ps[n - 2].page, ps[n - 2].y - LineStep, ps[n - 1], h);
      }
    }
  }

  /** The drawing commands of one placement: a continuation caption at the
      top of a new page, then the bullet, its text looked up in the label
      table once more. */
  function EmitOne(p: Placement, table: Table, h: real): (draws: seq<Draw>)
    ensures 1 <= |draws| <= 2
    ensures |draws| == 2 <==> p.opensPage
    ensures p.opensPage ==> draws[0] == Draw(p.page, Margin, h - Margin, Caption(ContinuationCaption))
    ensures draws[|draws| - 1] == Draw(p.page, BulletX, p.y, Bullet(Translate(table, p.item)))
    ensures forall i :: 0 <= i < |draws| ==> draws[i].page == p.page
  {
    (if p.opensPage then [Draw(p.page, Margin, h - Margin, Caption(ContinuationCaption))] else [])
    + [Draw(p.page, BulletX, p.y, Bullet(Translate(table, p.item)))]
  }

  /** The drawing commands of the placements, in order. */
  function Emit(ps: seq<Placement>, table: Table, h: real): (draws: seq<Draw>)
    ensures |draws| >= |ps|
  {
    if ps == [] then [] else EmitOne(ps[0], table, h) + Emit(ps[1..], table, h)
  }

  /** The bullet texts of a list of drawing commands, in drawing order. */
  function BulletTexts(draws: seq<Draw>): (texts: seq<string>)
    ensures |texts| <= |draws|
  {
    if draws == [] then [] else BulletOf(draws[0]) + BulletTexts(draws[1..])
  }

  /** The bullet text of one drawing command, if it is a bullet. */
  function BulletOf(d: Draw): (texts: seq<string>)
    ensures |texts| <= 1
  {
    if d.text.Bullet? then [d.text.item] else []
  }

  lemma {:induction false} BulletTextsAppend(a: seq<Draw>, b: seq<Draw>)
    ensures BulletTexts(a + b) == BulletTexts(a) + BulletTexts(b)
    decreases |a|
  {
    if a == [] {
      assert a + b == b;
    } else {
      assert (a + b)[0] == a[0];
      assert (a + b)[1..] == a[1..] + b;
      BulletTextsAppend(a[1..], b);
      assert BulletTexts(a + b) == BulletOf(a[0]) + (BulletTexts(a[1..]) + BulletTexts(b));
    }
  }

  /** The items of a list of placements. */
  function Items(ps: seq<Placement>): (items: seq<string>)
    ensures |items| == |ps|
    ensures forall i :: 0 <= i < |ps| ==> items[i] == ps[i].item
  {
    seq(|ps|, i requires 0 <= i < |ps| => ps[i].item)
  }

  /** One placement yields exactly one bullet, the localised item. */
  lemma EmitOneBullet(p: Placement, table: Table, h: real)
    ensures BulletTexts(EmitOne(p, table, h)) == [Translate(table, p.item)]
  {
    var d := EmitOne(p, table, h);
    if |d| == 2 {
      assert d == [d[0]] + [d[1]];
      BulletTextsAppend([d[0]], [d[1]]);
    }
  }

  /** Every placement yields exactly one bullet, in order, carrying the
      localised item. */
  lemma {:induction false} EmitDrawsEachItemOnce(ps: seq<Placement>, table: Table, h: real)
    ensures BulletTexts(Emit(ps, table, h)) == TranslateAll(table, Items(ps))
    decreases |ps|
  {
    if ps != [] {
      BulletTextsAppend(EmitOne(ps[0], table, h), Emit(ps[1..], table, h));
      EmitOneBullet(ps[0], table, h);
      EmitDrawsEachItemOnce(ps[1..], table, h);
      ItemsCons(ps);
      TranslateAllCons(table, ps[0].item, Items(ps[1..]));
    }
  }

  lemma ItemsCons(ps: seq<Placement>)
    requires ps != []
    ensures Items(ps) == [ps[0].item] + Items(ps[1..])
  {
    assert forall i :: 1 <= i < |ps| ==> ps[i] == ps[1..][i - 1];
  }

  /** Every command of `Emit` is on a page some placement is on. */
  lemma {:induction false} EmitPages(ps: seq<Placement>, table: Table, h: real)
    ensures forall d :: d in Emit(ps, table, h) ==> exists i :: 0 <= i < |ps| && d.page == ps[i].page
    decreases |ps|
  {
    if ps != [] {
      EmitPages(ps[1..], table, h);
      forall d | d in Emit(ps[1..], table, h)
        ensures exists i :: 0 <= i < |ps| && d.page == ps[i].page
      {
        var j :| 0 <= j < |ps[1..]| && d.page == ps[1..][j].page;
        assert d.page == ps[j + 1].page;
      }
    }
  }

  /** Every bullet `Emit` draws is at the height of some placement. */
  lemma {:induction false} EmitBulletHeights(ps: seq<Placement>, table: Table, h: real)
    ensures forall d :: d in Emit(ps, table, h) && d.text.Bullet? ==> exists i :: 0 <= i < |ps| && d.y == ps[i].y
    decreases |ps|
  {
    if ps != [] {
      EmitBulletHeights(ps[1..], table, h);
      forall d | d in Emit(ps, table, h) && d.text.Bullet?
        ensures exists i :: 0 <= i < |ps| && d.y == ps[i].y
      {
        if d in EmitOne(ps[0], table, h) {
          assert d.y == ps[0].y;
        } else {
          assert d in Emit(ps[1..], table, h);
          var j :| 0 <= j < |ps[1..]| && d.y == ps[1..][j].y;
          assert d.y == ps[j + 1].y;
        }
      }
    }
  }

  /** The comorbidity block: the bullets, or the "none identified" line
      when there is nothing to list. */
  function Block(items: seq<string>, table: Table, h: real): (draws: seq<Draw>)
    ensures |draws| >= |items| && |draws| > 0
  {
    if items == [] then [Draw(0, BulletX, ListTop(h), Caption(NoneIdentified))]
    else Emit(Place(items, 0, ListTop(h), h), table, h)
  }

  function LastPage(items: seq<string>, h: real): nat {
    if items == [] then 0
    else Place(items, 0, ListTop(h), h)[|items| - 1].page
  }

  /** The whole report: header, comorbidity block, footer. The bullet texts
      are looked up in `table`, which the backend fills with its
      English-to-Portuguese table. */
  function Render(sexCode: real, items: seq<string>, table: Table, h: real, w: real): (draws: seq<Draw>)
    ensures |draws| >= 14
    ensures draws[|draws| - 1] == Draw(LastPage(items, h), Margin, FooterY, GeneratedAt)
  {
    Header(sexCode, h, w) + Block(items, table, h) + [Draw(LastPage(items, h), Margin, FooterY, GeneratedAt)]
  }

  /** The sixth command of every report is the sex line, on the right-hand
      column of the first page. */
  lemma SexLineOfReport(sexCode: real, items: seq<string>, table: Table, h: real, w: real)
    ensures Render(sexCode, items, table, h, w)[5] == Draw(0, w / 2.0, h - 105.0, SexField(SexWord(sexCode)))
  {
    var hd := Header(sexCode, h, w);
    assert |hd| == 12;
    assert Render(sexCode, items, table, h, w)[5] == hd[5];
  }

  /** The bullets of the comorbidity block are the items, localised, in
      order. */
  lemma BlockBullets(items: seq<string>, table: Table, h: real)
    ensures BulletTexts(Block(items, table, h)) == TranslateAll(table, items)
  {
    if items != [] {
      var ps := Place(items, 0, ListTop(h), h);
      EmitDrawsEachItemOnce(ps, table, h);
      assert Items(ps) == items;
    }
  }

  /** The bullets of the report are the items, localised, in order, each
      exactly once. */
  lemma RenderDrawsItemsInOrder(sexCode: real, items: seq<string>, table: Table, h: real, w: real)
    ensures BulletTexts(Render(sexCode, items, table, h, w)) == TranslateAll(table, items)
  {
    BulletsBetween(Header(sexCode, h, w), Block(items, table, h), [Draw(LastPage(items, h), Margin, FooterY, GeneratedAt)]);
    BlockBullets(items, table, h);
  }

  /** Commands without bullets around a block add no bullets to it. */
  lemma BulletsBetween(a: seq<Draw>, b: seq<Draw>, c: seq<Draw>)
    requires forall i :: 0 <= i < |a| ==> !a[i].text.Bullet?
    requires forall i :: 0 <= i < |c| ==> !c[i].text.Bullet?
    ensures BulletTexts(a + b + c) == BulletTexts(b)
  {
    BulletTextsAppend(a + b, c);
    BulletTextsAppend(a, b);
    NoBullets(a);
    NoBullets(c);
  }

  lemma {:induction false} NoBullets(draws: seq<Draw>)
    requires forall i :: 0 <= i < |draws| ==> !draws[i].text.Bullet?
    ensures BulletTexts(draws) == []
    decreases |draws|
  {
    if draws != [] {
      NoBullets(draws[1..]);
    }
  }

  /** The same for the comorbidity block: every bullet sits at or above the
      threshold. */
  lemma BlockBulletsAboveThreshold(items: seq<string>, table: Table, h: real)
    requires Threshold <= FreshTop(h)
    ensures forall d :: d in Block(items, table, h) && d.text.Bullet? ==> Threshold <= d.y
  {
    if items != [] {
      var ps := Place(items, 0, ListTop(h), h);
      EmitBulletHeights(ps, table, h);
      forall i | 0 <= i < |ps|
        ensures Threshold <= ps[i].y
      {
        NoBulletBelowThreshold(items, 0, ListTop(h), h, i);
      }
    }
  }

  /** On a page tall enough for one bullet below the continuation caption,
      no bullet of the report is drawn below the threshold: what the cursor
      check before each bullet guarantees for the canvas itself. */
  lemma RenderBulletsAboveThreshold(sexCode: real, items: seq<string>, table: Table, h: real, w: real)
    requires Threshold <= FreshTop(h)
    ensures forall d :: d in Render(sexCode, items, table, h, w) && d.text.Bullet? ==> Threshold <= d.y
  {
    var hd := Header(sexCode, h, w);
    var b := Block(items, table, h);
    var r := Render(sexCode, items, table, h, w);
    assert r == hd + b + [Draw(LastPage(items, h), Margin, FooterY, GeneratedAt)];
    BlockBulletsAboveThreshold(items, table, h);
  }

  /** The "none identified" line appears exactly when the list is empty, and
      then it is the only line of the block. */
  lemma NoneLineExactlyWhenEmpty(sexCode: real, items: seq<string>, table: Table, h: real, w: real)
    ensures Block(items, table, h) == [Draw(0, BulletX, ListTop(h), Caption(NoneIdentified))] <==> items == []
    ensures items == [] ==> BulletTexts(Render(sexCode, items, table, h, w)) == []
  {
    if items != [] {
      BlockBullets(items, table, h);
    } else {
      RenderDrawsItemsInOrder(sexCode, items, table, h, w);
    }
  }

  /** The footer is on the last page: no command is on a later one. */
  lemma FooterOnLastPage(sexCode: real, items: seq<string>, table: Table, h: real, w: real)
    ensures var r := Render(sexCode, items, table, h, w);
            forall i :: 0 <= i < |r| ==> r[i].page <= r[|r| - 1].page
  {
    var r := Render(sexCode, items, table, h, w);
    var hd := Header(sexCode, h, w);
    var b := Block(items, table, h);
    assert r == hd + b + [r[|r| - 1]];
    forall i | 0 <= i < |r|
      ensures r[i].page <= r[|r| - 1].page
    {
      if |hd| <= i < |hd| + |b| && items != [] {
        var ps := Place(items, 0, ListTop(h), h);
        EmitPages(ps, table, h);
        assert b[i - |hd|] in Emit(ps, table, h);
        var j :| 0 <= j < |ps| && b[i - |hd|].page == ps[j].page;
        PagesAscend(items, 0, ListTop(h), h, j, |items| - 1);
      }
    }
  }

  /** After a run of `n` bullets that ends below the threshold, the next
      bullet opens the following page at its top line. */
  lemma BreakAfterRun(items: seq<string>, page: nat, cursor: real, h: real, n: nat)
    requires 0 < n < |items|
    requires cursor - LineStep * (n - 1) as real >= Threshold
    requires cursor - LineStep * n as real < Threshold
    ensures var ps := Place(items, page, cursor, h);
            ps[n].opensPage && ps[n].page == page + 1 && ps[n].y == FreshTop(h)
  {
    var ps := Place(items, page, cursor, h);
    RunOnOnePage(items, page, cursor, h, n);
    var k := n - 1;
    assert ps[k].y == cursor - LineStep * k as real;
    assert k as real == n as real - 1.0;
    assert ps[n - 1].y - LineStep == cursor - LineStep * n as real;
    assert Step(ps[n - 1].page, ps[n - 1].y - LineStep, ps[n], h);
  }

  /** The A4 arithmetic: 38 lines of 14 points fit between the top of the
      list and the threshold, 39 do not. */
  lemma A4ListRoom()
    ensures ListTop(A4Height) - LineStep * 37.0 >= Threshold
    ensures ListTop(A4Height) - LineStep * 38.0 < Threshold
    ensures FreshTop(A4Height) == A4Height - 60.0
  {
  }

  /** On A4 the first page holds 38 bullets; the 39th opens page 1 below its
      continuation caption. */
  lemma A4FirstPageHolds38(items: seq<string>)
    requires |items| >= 39
    ensures var ps := Place(items, 0, ListTop(A4Height), A4Height);
            && (forall i :: 0 <= i < 38 ==> ps[i].page == 0 && !ps[i].opensPage)
            && ps[38].opensPage && ps[38].page == 1 && ps[38].y == A4Height - 60.0
  {
    A4ListRoom();
    RunOnOnePage(items, 0, ListTop(A4Height), A4Height, 38);
    BreakAfterRun(items, 0, ListTop(A4Height), A4Height, 38);
  }
}
