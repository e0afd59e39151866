/** Masking twice: for JS the second time changes nothing; for SQL it does
    exactly when a "--" of the code has a comment right behind it. */
module MaskTwice {
  import opened Text
  import opened SqlLexer
  import opened SourceScan
  import opened BraceTrees

  /** A "--" of the code, no comment itself, in front of a comment. */
  predicate DashesBeforeComment(s: string, lang: Lang, i: nat) {
    && lang.Sql? && i + 2 < |s| && s[i] == '-' && s[i + 1] == '-' && Reaches(s, lang, 0, i)
    && !Masks(s, lang, 0, i + 1) && Masks(s, lang, 0, i + 2)
  }

  lemma {:induction false} MaskBlanks(m: string, lang: Lang, i: nat, e: nat, k: nat)
    requires i <= e <= |m| && forall j :: i <= j < e ==> m[j] == ' ' || m[j] == '\n'
    ensures Masks(m, lang, i, k) <==> Masks(m, lang, e, k)
    decreases e - i
  {
    if i < e {
      assert !CommentAt(m, lang, i) && Skip(m, lang, i) == i + 1;
      MaskBlanks(m, lang, i + 1, e, k);
    }
  }

  lemma MaskedEither(s: string, lang: Lang, k: nat)
    requires k < |s|
    ensures Masked(s, lang)[k] == s[k] || (Masked(s, lang)[k] == ' ' && Masks(s, lang, 0, k))
    ensures Masks(s, lang, 0, k) ==> Masked(s, lang)[k] == ' ' || Masked(s, lang)[k] == '\n'
  {
    hide Masks;
  }

  /** What starts no comment in the source starts none in the masked source, but
      for dashes in front of a comment. */
  lemma NoNewComment(s: string, lang: Lang, i: nat)
    requires i < |s| && Reaches(s, lang, 0, i) && !IsQuote(s[i]) && !CommentAt(s, lang, i)
    requires Masked(s, lang)[i] == s[i] && !DashesBeforeComment(s, lang, i)
    ensures !CommentAt(Masked(s, lang), lang, i)
  {
    hide Masks, Reaches, Skip, Masked;
    var m := Masked(s, lang);
    if i + 1 < |s| { MaskedEither(s, lang, i + 1); }
    if i + 2 < |s| { MaskedEither(s, lang, i + 2); }
  }

  /** One step of the scan, in the source and in the masked source. */
  lemma StepBoth(s: string, lang: Lang, i: nat, k: nat)
    requires i < |s| && Reaches(s, lang, 0, i) && !DashesBeforeComment(s, lang, i)
    ensures Masks(Masked(s, lang), lang, i, k) <==> Masks(Masked(s, lang), lang, Skip(s, lang, i), k)
  {
    hide Masks, Masked, Reaches, CommentAt, DashesBeforeComment, Skip;
    var m, j := Masked(s, lang), Skip(s, lang, i);
    forall k | i <= k < |s| && k < j
      ensures m[k] == if CommentAt(s, lang, i) && s[k] != '\n' then ' ' else s[k]
    {
      MaskedAt(s, lang, i, k);
    }
    SkipCases(s, lang, i);
    if CommentAt(s, lang, i) {
      CommentInside(s, lang, i);
      MaskBlanks(m, lang, i, j, k);
    } else if IsQuote(s[i]) {
      StringSame(s, m, i + 1, s[i]);
      SkipCases(m, lang, i);
      UnfoldMasks(m, lang, i, k);
    } else {
      NoNewComment(s, lang, i);
      SkipCases(m, lang, i);
      UnfoldMasks(m, lang, i, k);
    }
  }

  lemma UnfoldMasks(m: string, lang: Lang, i: nat, k: nat)
    requires i < |m| && !CommentAt(m, lang, i)
    ensures Masks(m, lang, i, k) <==> Masks(m, lang, Skip(m, lang, i), k)
  {
  }

  lemma {:induction false} NoComments(s: string, lang: Lang, i: nat, k: nat)
    requires Reaches(s, lang, 0, i) && forall h :: !DashesBeforeComment(s, lang, h)
    ensures !Masks(Masked(s, lang), lang, i, k)
    decreases |s| - i
  {
    hide Skip, Masked, DashesBeforeComment, Reaches;
    if i < |s| {
      StepBoth(s, lang, i, k);
      ReachesAhead(s, lang, 0, i);
      NoComments(s, lang, Skip(s, lang, i), k);
    }
  }

  lemma DashesMask(s: string, lang: Lang, i: nat)
    requires DashesBeforeComment(s, lang, i)
    ensures Masks(Masked(s, lang), lang, i, i) && Masked(s, lang)[i] == '-'
  {
    hide Reaches, Masked, StringEnd;
    var m := Masked(s, lang);
    MaskedEither(s, lang, i + 1);
    MaskedEither(s, lang, i + 2);
    if CommentAt(s, lang, i) {
      assert Skip(s, lang, i) == LineBreak(s, i + 1) > i + 1;
      ReachesMasks(s, lang, 0, i, i + 1);
    }
    MaskedAt(s, lang, i, i);
    assert LineCommentAt(m, i);
  }

  lemma ReachesStep(s: string, lang: Lang, i: nat, h: nat)
    requires Reaches(s, lang, i, h) && i != h
    ensures i < |s| && Reaches(s, lang, Skip(s, lang, i), h)
  {
  }

  lemma {:induction false} DashesFound(s: string, lang: Lang, i: nat, h: nat) returns (k: nat)
    requires Reaches(s, lang, 0, i) && Reaches(s, lang, i, h) && DashesBeforeComment(s, lang, h)
    ensures k < |s| && Masks(Masked(s, lang), lang, i, k) && Masked(s, lang)[k] == '-'
    decreases |s| - i
  {
    hide Skip, Masked, Masks, Reaches;
    if DashesBeforeComment(s, lang, i) {
      DashesMask(s, lang, i);
      k := i;
    } else {
      ReachesStep(s, lang, i, h);
      ReachesAhead(s, lang, 0, i);
      k := DashesFound(s, lang, Skip(s, lang, i), h);
      StepBoth(s, lang, i, k);
    }
  }

  lemma ReachesSelf(s: string, lang: Lang)
    ensures Reaches(s, lang, 0, 0)
  {
  }

  /** Masking is idempotent exactly when no "--" of the code stands right before
      a comment; for JS it always is. */
  lemma MaskingTwice(s: string, lang: Lang)
    ensures Masked(Masked(s, lang), lang) == Masked(s, lang) <==> forall i :: !DashesBeforeComment(s, lang, i)
  {
    hide Masks, Reaches, DashesBeforeComment;
    var m := Masked(s, lang);
    ReachesSelf(s, lang);
    if forall i :: !DashesBeforeComment(s, lang, i) {
      forall k | 0 <= k < |s| ensures Masked(m, lang)[k] == m[k] {
        NoComments(s, lang, 0, k);
      }
      assert Masked(m, lang) == m;
    } else {
      var h :| DashesBeforeComment(s, lang, h);
      assert Reaches(s, lang, 0, h) by { DashesReached(s, lang, h); }
      var k := DashesFound(s, lang, 0, h);
      assert Masked(m, lang)[k] == ' ';
    }
  }

  lemma DashesReached(s: string, lang: Lang, h: nat)
    requires DashesBeforeComment(s, lang, h)
    ensures Reaches(s, lang, 0, h)
  {
  }

  lemma MaskingTwiceJs(s: string)
    ensures Masked(Masked(s, Js), Js) == Masked(s, Js)
  {
    hide Masked;
    MaskingTwice(s, Js);
  }

  /** Not for SQL: in --/ * x * / y the dashes become a comment once the block
      comment behind them is blank. */
  lemma MaskingTwiceSql()
    ensures var s := "--/**/"; Masked(Masked(s, Sql), Sql) != Masked(s, Sql)
  {
    var s := "--/**/";
    assert !CommentAt(s, Sql, 0) && Skip(s, Sql, 0) == 1;
    assert !CommentAt(s, Sql, 1) && Skip(s, Sql, 1) == 2;
    assert CommentEnd(s, 4) == Some(6) && CommentAt(s, Sql, 2) && Skip(s, Sql, 2) == 6;
    assert Masks(s, Sql, 2, 2) && Masks(s, Sql, 1, 2) && Masks(s, Sql, 0, 2);
    assert !Masks(s, Sql, 6, 1) && !Masks(s, Sql, 2, 1) && !Masks(s, Sql, 1, 1);
    assert DashesBeforeComment(s, Sql, 0);
    hide Masked, DashesBeforeComment;
    MaskingTwice(s, Sql);
  }
}
