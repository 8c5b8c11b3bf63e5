/** Validation, plain-text fallback and sanitising of comments in the Atlassian Document Format
    (internal/jira/adf_validator.go:83-418). */
module Adf {
  import opened Common

  datatype Attr = Null | Value(text: string)

  /** The attributes of a mark are a map that may be absent. */
  datatype Mark = Mark(typ: string, attrs: Option<map<string, Attr>>)

  datatype Text = Text(typ: string, text: string, marks: seq<Mark>)

  datatype Block = Block(typ: string, content: seq<Text>)

  datatype Payload = Payload(typ: string, version: int, content: seq<Block>)

  predicate BlockType(typ: string) {
    typ in {"paragraph", "heading", "bulletList", "orderedList", "codeBlock", "blockquote",
            "panel", "table", "layout", "embed", "extension"}
  }

  predicate TextType(typ: string) {
    typ in {"text", "hardBreak", "mention"}
  }

  predicate MarkType(typ: string) {
    typ in {"bold", "italic", "underline", "strike", "code", "link", "subscript", "superscript", "color"}
  }

  predicate HasHref(m: Mark) {
    m.attrs.Some? && "href" in m.attrs.value && m.attrs.value["href"] != Null
  }

  // What a valid document is -----------------------------------------------------------------------

  predicate GoodMark(m: Mark) {
    MarkType(m.typ) && (m.typ == "link" ==> HasHref(m))
  }

  predicate GoodText(t: Text) {
    TextType(t.typ) && (t.typ == "text" ==> t.text != "") && forall m | m in t.marks :: GoodMark(m)
  }

  predicate GoodBlock(b: Block) {
    BlockType(b.typ) && b.content != [] && forall t | t in b.content :: GoodText(t)
  }

  predicate GoodPayload(p: Payload) {
    p.typ == "doc" && p.version == 1 && p.content != [] && forall b | b in p.content :: GoodBlock(b)
  }

  // Validation ---------------------------------------------------------------------------------------

  datatype MarkFault = MarkTypeMissing | MarkTypeInvalid | LinkWithoutAttrs | LinkWithoutHref

  datatype TextFault = TextTypeMissing | TextTypeInvalid | TextEmpty | BadMark(index: nat, mark: MarkFault)

  datatype BlockFault = BlockTypeMissing | BlockTypeInvalid | BlockEmpty | BadText(index: nat, text: TextFault)

  datatype Fault = WrongType | WrongVersion | NoContent | BadBlock(index: nat, block: BlockFault)

  method ValidateMark(m: Mark) returns (f: Option<MarkFault>)
    ensures f == None <==> GoodMark(m)
    ensures f.Some? ==> (f.value == MarkTypeMissing <==> m.typ == "")
    ensures f.Some? ==> (f.value == MarkTypeInvalid <==> m.typ != "" && !MarkType(m.typ))
    ensures f.Some? ==> (f.value == LinkWithoutAttrs <==> m.typ == "link" && m.attrs == None)
  {
    if m.typ == "" { return Some(MarkTypeMissing); }
    if !MarkType(m.typ) { return Some(MarkTypeInvalid); }
    if m.typ == "link" {
      if m.attrs == None { return Some(LinkWithoutAttrs); }
      if !HasHref(m) { return Some(LinkWithoutHref); }
    }
    return None;
  }

  method ValidateTextContent(t: Text) returns (f: Option<TextFault>)
    ensures f == None <==> GoodText(t)
    ensures f.Some? && f.value.BadMark? ==>
              var i := f.value.index;
              && i < |t.marks| && !GoodMark(t.marks[i])
              && forall j :: 0 <= j < i ==> GoodMark(t.marks[j])
    ensures f.Some? ==> (f.value == TextTypeMissing <==> t.typ == "")
    ensures f.Some? ==> (f.value == TextTypeInvalid <==> t.typ != "" && !TextType(t.typ))
    ensures f.Some? ==> (f.value == TextEmpty <==> t.typ == "text" && t.text == "")
  {
    if t.typ == "" { return Some(TextTypeMissing); }
    if !TextType(t.typ) { return Some(TextTypeInvalid); }
    if t.typ == "text" && t.text == "" { return Some(TextEmpty); }
    for i := 0 to |t.marks|
      invariant forall j :: 0 <= j < i ==> GoodMark(t.marks[j])
    {
      var mf := ValidateMark(t.marks[i]);
      if mf.Some? { return Some(BadMark(i, mf.value)); }
    }
    return None;
  }

  method ValidateContentBlock(b: Block) returns (f: Option<BlockFault>)
    ensures f == None <==> GoodBlock(b)
    ensures f.Some? && f.value.BadText? ==>
              var i := f.value.index;
              && i < |b.content| && !GoodText(b.content[i])
              && forall j :: 0 <= j < i ==> GoodText(b.content[j])
    ensures f.Some? ==> (f.value == BlockTypeMissing <==> b.typ == "")
    ensures f.Some? ==> (f.value == BlockTypeInvalid <==> b.typ != "" && !BlockType(b.typ))
    ensures f.Some? ==> (f.value == BlockEmpty <==> BlockType(b.typ) && b.content == [])
  {
    if b.typ == "" { return Some(BlockTypeMissing); }
    if !BlockType(b.typ) { return Some(BlockTypeInvalid); }
    if |b.content| == 0 { return Some(BlockEmpty); }
    for i := 0 to |b.content|
      invariant forall j :: 0 <= j < i ==> GoodText(b.content[j])
    {
      var tf := ValidateTextContent(b.content[i]);
      if tf.Some? { return Some(BadText(i, tf.value)); }
    }
    return None;
  }

  /** `validateADF`: accepts exactly the good payloads, and names the first bad block otherwise. */
  method ValidateADF(p: Payload) returns (f: Option<Fault>)
    ensures f == None <==> GoodPayload(p)
    ensures f.Some? && f.value.BadBlock? ==>
              var i := f.value.index;
              && i < |p.content| && !GoodBlock(p.content[i])
              && forall j :: 0 <= j < i ==> GoodBlock(p.content[j])
    ensures f.Some? ==> (f.value == WrongType <==> p.typ != "doc")
    ensures f.Some? ==> (f.value == WrongVersion <==> p.typ == "doc" && p.version != 1)
    ensures f.Some? ==> (f.value == NoContent <==> p.typ == "doc" && p.version == 1 && p.content == [])
  {
    if p.typ != "doc" { return Some(WrongType); }
    if p.version != 1 { return Some(WrongVersion); }
    if |p.content| == 0 { return Some(NoContent); }
    for i := 0 to |p.content|
      invariant forall j :: 0 <= j < i ==> GoodBlock(p.content[j])
    {
      var bf := ValidateContentBlock(p.content[i]);
      if bf.Some? { return Some(BadBlock(i, bf.value)); }
    }
    return None;
  }

  /** The valid documents, type by type: when a document of one block with one text and one mark
      is valid. */
  lemma SmallDocumentIsValidIff(block: string, typ: string, text: string, mark: string,
                                attrs: Option<map<string, Attr>>)
    ensures GoodPayload(Payload("doc", 1, [Block(block, [Text(typ, text, [Mark(mark, attrs)])])])) <==>
            && block in {"paragraph", "heading", "bulletList", "orderedList", "codeBlock", "blockquote", "panel",
                         "table", "layout", "embed", "extension"}
            && typ in {"text", "hardBreak", "mention"} && (typ == "text" ==> text != "")
            && mark in {"bold", "italic", "underline", "strike", "code", "link", "subscript", "superscript", "color"}
            && (mark == "link" ==> attrs.Some? && "href" in attrs.value && attrs.value["href"] != Null)
  {
    var m := Mark(mark, attrs);
    var t := Text(typ, text, [m]);
    var b := Block(block, [t]);
    assert m in t.marks && t in b.content && b in [b];
  }

  // Plain text -----------------------------------------------------------------------------------------

  function TextOf(t: Text): string {
    if t.typ == "text" then t.text else ""
  }

  function BlockText(ts: seq<Text>): string {
    if ts == [] then "" else BlockText(ts[..|ts| - 1]) + TextOf(ts[|ts| - 1])
  }

  /** The blocks' texts, separated by newlines. */
  function DocText(bs: seq<Block>): string {
    if bs == [] then ""
    else
      var n := |bs| - 1;
      (if n == 0 then "" else DocText(bs[..n]) + "\n") + BlockText(bs[n].content)
  }

  lemma DocTextStep(bs: seq<Block>, i: nat)
    requires i < |bs|
    ensures DocText(bs[..i + 1]) == (if i == 0 then "" else DocText(bs[..i]) + "\n") + BlockText(bs[i].content)
  {
    assert bs[..i + 1][..i] == bs[..i];
  }

  lemma BlockTextStep(ts: seq<Text>, j: nat)
    requires j < |ts|
    ensures BlockText(ts[..j + 1]) == BlockText(ts[..j]) + TextOf(ts[j])
  {
    assert ts[..j + 1][..j] == ts[..j];
  }

  method WriteBlock(item: Block, before: string) returns (result: string)
    ensures result == before + BlockText(item.content)
  {
    result := before;
    for j := 0 to |item.content|
      invariant result == before + BlockText(item.content[..j])
    {
      BlockTextStep(item.content, j);
      hide BlockText;
      if item.content[j].typ == "text" {
        result := result + item.content[j].text;
      }
    }
    assert item.content[..|item.content|] == item.content;
  }

  /** The loop shared by `ExtractTextFromADF` and `fallbackToPlainText`. */
  method WriteText(p: Payload) returns (result: string)
    ensures result == DocText(p.content)
  {
    var n := |p.content|;
    result := "";
    assert DocText(p.content[..0]) == "";
    hide DocText, BlockText;
    for i := 0 to n
      invariant result == DocText(p.content[..i]) + if 0 < i < n then "\n" else ""
    {
      DocTextStep(p.content, i);
      result := WriteBlock(p.content[i], result);
      if i < n - 1 {
        result := result + "\n";
      }
    }
    assert p.content[..n] == p.content;
  }

  method ExtractTextFromADF(p: Payload) returns (result: string)
    ensures result == DocText(p.content)
  {
    result := WriteText(p);
  }

  method FallbackToPlainText(p: Payload) returns (result: string)
    ensures result == DocText(p.content) + "\n"
  {
    result := WriteText(p);
    result := result + "\n";
  }

  function SimpleADF(text: string): Payload {
    Payload("doc", 1, [Block("paragraph", [Text("text", text, [])])])
  }

  /** What `validateAndFallback` is to return. */
  function Normalised(p: Payload): Payload {
    if GoodPayload(p) then p else SimpleADF(DocText(p.content) + "\n")
  }

  method ValidateAndFallback(p: Payload) returns (r: Payload)
    ensures r == Normalised(p)
  {
    var f := ValidateADF(p);
    if f.Some? {
      var plain := FallbackToPlainText(p);
      return SimpleADF(plain);
    }
    return p;
  }

  lemma SimpleADFText(text: string)
    ensures DocText(SimpleADF(text).content) == text
    ensures GoodPayload(SimpleADF(text)) <==> text != ""
  {
    var t := Text("text", text, []);
    assert BlockText([t]) == BlockText([]) + text;
    var b := Block("paragraph", [t]);
    assert DocText([b]) == BlockText([t]);
    assert t in b.content && b in SimpleADF(text).content;
  }

  /** The normaliser is total and idempotent, leaves valid payloads alone, and keeps the text up
      to one newline at the end. */
  lemma NormaliserLaws(p: Payload)
    ensures GoodPayload(Normalised(p))
    ensures Normalised(Normalised(p)) == Normalised(p)
    ensures Normalised(p) == p <==> GoodPayload(p)
    ensures DocText(Normalised(p).content) == DocText(p.content) + if GoodPayload(p) then "" else "\n"
  {
    SimpleADFText(DocText(p.content) + "\n");
  }

  /** A single `strong` mark, as the comment generators write it, costs a document all of its
      formatting: only the plain text is posted. */
  lemma StrongMarkFallsBack(p: Payload, i: nat, j: nat, k: nat)
    requires i < |p.content| && j < |p.content[i].content| && k < |p.content[i].content[j].marks|
    requires p.content[i].content[j].marks[k].typ == "strong"
    ensures Normalised(p) == SimpleADF(DocText(p.content) + "\n")
  {
    var b := p.content[i];
    var t := b.content[j];
    var m := t.marks[k];
    assert m in t.marks && t in b.content && b in p.content;
    assert !GoodMark(m);
  }

  // Sanitising -----------------------------------------------------------------------------------------

  predicate KeepsMark(m: Mark) {
    m.typ != "" && (m.typ == "link" ==> HasHref(m))
  }

  predicate KeepsText(t: Text) {
    t.typ != "" && (t.typ == "text" ==> t.text != "")
  }

  predicate KeepsBlock(b: Block) {
    BlockType(b.typ)
  }

  function CleanMark(m: Mark): Mark {
    if m.attrs.Some? && m.typ == "link" && !HasHref(m) then Mark("", None) else m
  }

  function CleanMarks(ms: seq<Mark>): seq<Mark> {
    if ms == [] then []
    else
      var n := |ms| - 1;
      CleanMarks(ms[..n]) + if KeepsMark(ms[n]) then [CleanMark(ms[n])] else []
  }

  function CleanText(t: Text): Text {
    t.(marks := CleanMarks(t.marks))
  }

  function CleanTexts(ts: seq<Text>): seq<Text> {
    if ts == [] then []
    else
      var n := |ts| - 1;
      CleanTexts(ts[..n]) + if KeepsText(ts[n]) then [CleanText(ts[n])] else []
  }

  function CleanBlock(b: Block): Block {
    b.(content := CleanTexts(b.content))
  }

  function CleanBlocks(bs: seq<Block>): seq<Block> {
    if bs == [] then []
    else
      var n := |bs| - 1;
      CleanBlocks(bs[..n]) + if KeepsBlock(bs[n]) then [CleanBlock(bs[n])] else []
  }

  function Sanitized(p: Payload): Payload {
    p.(content := CleanBlocks(p.content))
  }

  method SanitizeTextContent(t: Text) returns (r: Text)
    ensures r == CleanText(t)
  {
    var marks := [];
    for i := 0 to |t.marks|
      invariant marks == CleanMarks(t.marks[..i])
    {
      assert t.marks[..i + 1][..i] == t.marks[..i];
      if KeepsMark(t.marks[i]) {
        marks := marks + [CleanMark(t.marks[i])];
      }
    }
    assert t.marks[..|t.marks|] == t.marks;
    return t.(marks := marks);
  }

  method SanitizeContentBlock(b: Block) returns (r: Block)
    ensures r == CleanBlock(b)
  {
    var content := [];
    for i := 0 to |b.content|
      invariant content == CleanTexts(b.content[..i])
    {
      assert b.content[..i + 1][..i] == b.content[..i];
      if KeepsText(b.content[i]) {
        var t := SanitizeTextContent(b.content[i]);
        content := content + [t];
      }
    }
    assert b.content[..|b.content|] == b.content;
    return b.(content := content);
  }

  method SanitizeADF(p: Payload) returns (r: Payload)
    ensures r == Sanitized(p)
  {
    var content := [];
    for i := 0 to |p.content|
      invariant content == CleanBlocks(p.content[..i])
    {
      assert p.content[..i + 1][..i] == p.content[..i];
      if KeepsBlock(p.content[i]) {
        var b := SanitizeContentBlock(p.content[i]);
        content := content + [b];
      }
    }
    assert p.content[..|p.content|] == p.content;
    return p.(content := content);
  }

  lemma GoodIsKept(m: Mark, t: Text)
    ensures GoodMark(m) ==> KeepsMark(m)
    ensures GoodText(t) ==> KeepsText(t)
  {
  }

  lemma CleanMarksAppend(ms: seq<Mark>, m: Mark)
    ensures CleanMarks(ms + [m]) == CleanMarks(ms) + if KeepsMark(m) then [m] else []
  {
    assert (ms + [m])[..|ms|] == ms;
  }

  /** The marks that remain are exactly the acceptable ones, unchanged and in order. */
  lemma {:induction false} MarksKept(ms: seq<Mark>)
    ensures forall m :: m in CleanMarks(ms) <==> m in ms && KeepsMark(m)
    ensures (forall m | m in ms :: KeepsMark(m)) ==> CleanMarks(ms) == ms
  {
    if ms != [] {
      var n := |ms| - 1;
      assert ms == ms[..n] + [ms[n]];
      MarksKept(ms[..n]);
      CleanMarksAppend(ms[..n], ms[n]);
      hide CleanMarks, KeepsMark;
    }
  }

  lemma CleanTextIsClean(t: Text)
    ensures KeepsText(t) <==> KeepsText(CleanText(t))
    ensures CleanText(CleanText(t)) == CleanText(t)
    ensures GoodText(t) ==> KeepsText(t) && CleanText(t) == t
    ensures TextOf(CleanText(t)) == TextOf(t)
  {
    MarksKept(t.marks);
    MarksKept(CleanMarks(t.marks));
    if GoodText(t) {
      forall m | m in t.marks ensures KeepsMark(m) { GoodIsKept(m, t); }
      GoodIsKept(Mark("", None), t);
    }
    hide CleanMarks, KeepsMark, GoodText, GoodMark;
  }

  /** Kept and left as it is. */
  predicate StableText(t: Text) {
    KeepsText(t) && CleanText(t) == t
  }

  predicate StableBlock(b: Block) {
    KeepsBlock(b) && CleanBlock(b) == b
  }

  lemma {:induction false} TextOrigin(ts: seq<Text>, t: Text) returns (u: Text)
    requires t in CleanTexts(ts)
    ensures u in ts && KeepsText(u) && t == CleanText(u)
  {
    hide KeepsText, CleanText;
    var n := |ts| - 1;
    if t in CleanTexts(ts[..n]) { u := TextOrigin(ts[..n], t); } else { u := ts[n]; }
  }

  lemma {:induction false} TextSurvives(ts: seq<Text>, t: Text)
    requires t in ts && KeepsText(t)
    ensures CleanText(t) in CleanTexts(ts)
  {
    hide KeepsText, CleanText;
    var n := |ts| - 1;
    if t != ts[n] { TextSurvives(ts[..n], t); }
  }

  lemma {:induction false} StableTextsKept(ts: seq<Text>)
    requires forall t | t in ts :: StableText(t)
    ensures CleanTexts(ts) == ts
  {
    hide KeepsText, CleanText;
    if ts != [] {
      var n := |ts| - 1;
      assert StableText(ts[n]);
      StableTextsKept(ts[..n]);
    }
  }

  lemma {:induction false} TextsKeepText(ts: seq<Text>)
    ensures BlockText(CleanTexts(ts)) == BlockText(ts)
  {
    if ts != [] {
      var n := |ts| - 1;
      var init := CleanTexts(ts[..n]);
      TextsKeepText(ts[..n]);
      CleanTextIsClean(ts[n]);
      if KeepsText(ts[n]) {
        assert (init + [CleanText(ts[n])])[..|init|] == init;
      } else {
        assert TextOf(ts[n]) == "";
        assert init + [] == init;
      }
    }
  }

  lemma CleanTextsAreStable(ts: seq<Text>)
    ensures CleanTexts(CleanTexts(ts)) == CleanTexts(ts)
  {
    forall t | t in CleanTexts(ts) ensures StableText(t) {
      var u := TextOrigin(ts, t);
      CleanTextIsClean(u);
    }
    StableTextsKept(CleanTexts(ts));
  }

  lemma CleanBlockIsClean(b: Block)
    ensures CleanBlock(CleanBlock(b)) == CleanBlock(b)
    ensures GoodBlock(b) ==> StableBlock(b)
    ensures KeepsBlock(b) ==> StableBlock(CleanBlock(b))
    ensures BlockText(CleanBlock(b).content) == BlockText(b.content)
  {
    hide CleanTexts, GoodText, BlockType, BlockText;
    CleanTextsAreStable(b.content);
    TextsKeepText(b.content);
    if GoodBlock(b) {
      forall t | t in b.content ensures StableText(t) { CleanTextIsClean(t); }
      StableTextsKept(b.content);
    }
  }

  lemma {:induction false} BlockOrigin(bs: seq<Block>, b: Block) returns (c: Block)
    requires b in CleanBlocks(bs)
    ensures c in bs && KeepsBlock(c) && b == CleanBlock(c)
  {
    hide KeepsBlock, CleanBlock;
    var n := |bs| - 1;
    if b in CleanBlocks(bs[..n]) { c := BlockOrigin(bs[..n], b); } else { c := bs[n]; }
  }

  lemma {:induction false} BlockSurvives(bs: seq<Block>, b: Block)
    requires b in bs && KeepsBlock(b)
    ensures CleanBlock(b) in CleanBlocks(bs)
  {
    hide KeepsBlock, CleanBlock;
    var n := |bs| - 1;
    if b != bs[n] { BlockSurvives(bs[..n], b); }
  }

  /** What sanitising keeps: a mark that has a type and, if it is a link, an address; a text that has a
      type and, if it is plain, some text; a block of a known type; each with what is kept of it. */
  lemma KeptIff(p: Payload, b: Block, t: Text, m: Mark)
    ensures m in t.marks ==>
              (m in CleanText(t).marks <==> m.typ != "" && (m.typ == "link" ==>
                 m.attrs.Some? && "href" in m.attrs.value && m.attrs.value["href"] != Null))
    ensures t in b.content ==>
              (CleanText(t) in CleanBlock(b).content <==> t.typ != "" && (t.typ == "text" ==> t.text != ""))
    ensures b in p.content ==>
              (CleanBlock(b) in Sanitized(p).content <==>
                 b.typ in {"paragraph", "heading", "bulletList", "orderedList", "codeBlock", "blockquote", "panel",
                           "table", "layout", "embed", "extension"})
  {
    MarksKept(t.marks);
    if t in b.content {
      if KeepsText(t) {
        TextSurvives(b.content, t);
      } else if CleanText(t) in CleanTexts(b.content) {
        var u := TextOrigin(b.content, CleanText(t));
      }
    }
    if b in p.content {
      if KeepsBlock(b) {
        BlockSurvives(p.content, b);
      } else if CleanBlock(b) in CleanBlocks(p.content) {
        var c := BlockOrigin(p.content, CleanBlock(b));
      }
    }
  }

  lemma {:induction false} StableBlocksKept(bs: seq<Block>)
    requires forall b | b in bs :: StableBlock(b)
    ensures CleanBlocks(bs) == bs
  {
    hide KeepsBlock, CleanBlock;
    if bs != [] {
      var n := |bs| - 1;
      assert StableBlock(bs[n]);
      StableBlocksKept(bs[..n]);
    }
  }

  /** Sanitising twice changes nothing more, and a valid payload is not touched at all. */
  lemma SanitizeLaws(p: Payload)
    ensures Sanitized(Sanitized(p)) == Sanitized(p)
    ensures GoodPayload(p) ==> Sanitized(p) == p
  {
    hide CleanBlocks, GoodBlock;
    forall b | b in CleanBlocks(p.content) ensures StableBlock(b) {
      var c := BlockOrigin(p.content, b);
      CleanBlockIsClean(c);
    }
    StableBlocksKept(CleanBlocks(p.content));
    if GoodPayload(p) {
      forall b | b in p.content ensures StableBlock(b) { CleanBlockIsClean(b); }
      StableBlocksKept(p.content);
    }
  }

  function KeptBlocks(bs: seq<Block>): seq<Block> {
    if bs == [] then []
    else
      var n := |bs| - 1;
      KeptBlocks(bs[..n]) + if KeepsBlock(bs[n]) then [bs[n]] else []
  }

  lemma DocTextSnoc(bs: seq<Block>, b: Block)
    ensures DocText(bs + [b]) == (if bs == [] then "" else DocText(bs) + "\n") + BlockText(b.content)
  {
    assert (bs + [b])[..|bs|] == bs;
  }

  /** Sanitising loses no text within the blocks it keeps. */
  lemma {:induction false} SanitizeKeepsText(bs: seq<Block>)
    ensures DocText(CleanBlocks(bs)) == DocText(KeptBlocks(bs))
    ensures |CleanBlocks(bs)| == |KeptBlocks(bs)|
  {
    if bs != [] {
      var n := |bs| - 1;
      SanitizeKeepsText(bs[..n]);
      CleanBlockIsClean(bs[n]);
      DocTextSnoc(CleanBlocks(bs[..n]), CleanBlock(bs[n]));
      DocTextSnoc(KeptBlocks(bs[..n]), bs[n]);
      hide KeepsBlock, CleanBlock, DocText, BlockText;
      if !KeepsBlock(bs[n]) {
        assert CleanBlocks(bs[..n]) + [] == CleanBlocks(bs[..n]) && KeptBlocks(bs[..n]) + [] == KeptBlocks(bs[..n]);
      }
    }
  }

  /** Can sanitising this text, or this block, leave something valid? */
  predicate Salvageable(t: Text) {
    TextType(t.typ) && forall m | m in t.marks && KeepsMark(m) :: MarkType(m.typ)
  }

  predicate SalvageableBlock(b: Block) {
    (exists t :: t in b.content && KeepsText(t)) && forall t | t in b.content && KeepsText(t) :: Salvageable(t)
  }

  lemma CleanTextIsGoodIff(t: Text)
    requires KeepsText(t)
    ensures GoodText(CleanText(t)) <==> Salvageable(t)
  {
    MarksKept(t.marks);
  }

  lemma CleanBlockIsGoodIff(b: Block)
    requires KeepsBlock(b)
    ensures GoodBlock(CleanBlock(b)) <==> SalvageableBlock(b)
  {
    hide GoodText, CleanText, Salvageable, KeepsText, CleanTexts, BlockType;
    var clean := CleanTexts(b.content);
    if GoodBlock(CleanBlock(b)) {
      var u := TextOrigin(b.content, clean[0]);
      forall t | t in b.content && KeepsText(t) ensures Salvageable(t) {
        TextSurvives(b.content, t);
        CleanTextIsGoodIff(t);
      }
    }
    if SalvageableBlock(b) {
      var t :| t in b.content && KeepsText(t);
      TextSurvives(b.content, t);
      forall t | t in clean ensures GoodText(t) {
        var u := TextOrigin(b.content, t);
        CleanTextIsGoodIff(u);
      }
    }
  }

  /** When sanitising makes a payload valid: the header must be right already, some block must
      be of a known type, and each such block must have a text left, with every remaining text
      and mark of a known type. */
  lemma SanitizedIsValidIff(p: Payload)
    ensures GoodPayload(Sanitized(p)) <==>
            && p.typ == "doc" && p.version == 1
            && (exists b :: b in p.content && KeepsBlock(b))
            && forall b | b in p.content && KeepsBlock(b) :: SalvageableBlock(b)
  {
    hide GoodBlock, CleanBlock, SalvageableBlock, KeepsBlock, CleanBlocks;
    var clean := CleanBlocks(p.content);
    if GoodPayload(Sanitized(p)) {
      var c := BlockOrigin(p.content, clean[0]);
      forall b | b in p.content && KeepsBlock(b) ensures SalvageableBlock(b) {
        BlockSurvives(p.content, b);
        CleanBlockIsGoodIff(b);
      }
    }
    if (exists b :: b in p.content && KeepsBlock(b))
       && forall b | b in p.content && KeepsBlock(b) :: SalvageableBlock(b) {
      var c :| c in p.content && KeepsBlock(c);
      BlockSurvives(p.content, c);
      forall b | b in clean ensures GoodBlock(b) {
        var d := BlockOrigin(p.content, b);
        CleanBlockIsGoodIff(d);
      }
    }
  }
}
