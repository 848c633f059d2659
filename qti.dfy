/** The XML texts `generateQTI` writes: the assessment meta file listing the
    items, and one QTI 1.2 item per question. Every text is spelled as the
    component's template literals spell it (line breaks, indentation and the two
    trailing blanks after some opening tags included); numbers are written in
    plain decimal, which is how JavaScript writes every integer of magnitude up
    to 2^53 (larger answers are rounded to doubles there). Prompt and
    choice texts are embedded verbatim: nothing is escaped. */
module Qti {
  import opened Decimal
  import opened Quiz

  datatype Option<T> = None | Some(value: T)

  // ---------------------------------------------------------------------------
  // Text helpers

  /** JavaScript's `Array.prototype.join(sep)`. */
  function Join(xs: seq<string>, sep: string): string
    decreases |xs|
  {
    if |xs| == 0 then "" else if |xs| == 1 then xs[0] else xs[0] + sep + Join(xs[1..], sep)
  }

  /** The strings of `xs` one after the other. */
  function Concat(xs: seq<string>): string
    decreases |xs|
  {
    if xs == [] then "" else xs[0] + Concat(xs[1..])
  }

  /** `f` is written in `s` starting at position `k`. */
  predicate At(s: string, k: nat, f: string) {
    k + |f| <= |s| && s[k..k + |f|] == f
  }

  function IndexOf(s: string, c: char): (r: Option<nat>)
    ensures r.Some? ==> r.value < |s| && s[r.value] == c
    decreases |s|
  {
    if s == [] then None
    else if s[0] == c then Some(0)
    else match IndexOf(s[1..], c)
      case None => None
      case Some(k) => Some(k + 1)
  }

  function LastIndexOf(s: string, c: char): (r: Option<nat>)
    ensures r.Some? ==> r.value < |s| && s[r.value] == c
    decreases |s|
  {
    if s == [] then None
    else if s[|s| - 1] == c then Some(|s| - 1)
    else LastIndexOf(s[..|s| - 1], c)
  }

  // ---------------------------------------------------------------------------
  // Identifiers (all derived from positions, never random)

  /** `q${i + 1}`: the ident of the item for the question at position `i`. */
  function ItemId(i: nat): string {
    "q" + Digits(i + 1)
  }

  /** `response${i + 1}`. */
  function ResponseId(i: nat): string {
    "response" + Digits(i + 1)
  }

  /** `choice${j}`: for a label `j` is a position, for the scoring condition
      it is the stored answer, which may be any integer. */
  function ChoiceId(j: int): string {
    "choice" + IntText(j)
  }

  lemma ItemIdInjective(i: nat, k: nat)
    ensures ItemId(i) == ItemId(k) ==> i == k
  {
    if ItemId(i) == ItemId(k) {
      assert Digits(i + 1) == ItemId(i)[1..];
      assert Digits(k + 1) == ItemId(k)[1..];
      DigitsInjective(i + 1, k + 1);
    }
  }

  lemma ChoiceIdInjective(a: int, b: int)
    ensures ChoiceId(a) == ChoiceId(b) ==> a == b
  {
    if ChoiceId(a) == ChoiceId(b) {
      assert IntText(a) == ChoiceId(a)[6..];
      assert IntText(b) == ChoiceId(b)[6..];
      IntTextInjective(a, b);
    }
  }

  /** The scoring condition names one of the item's choice labels exactly
      when the stored answer is a position of an existing choice; an answer
      out of range (never checked) gives a question no response can score. */
  lemma AnswerNamesOfferedChoice(q: Question)
    ensures (exists j :: 0 <= j < |q.choices| && ChoiceId(j) == ChoiceId(q.answer))
            <==> 0 <= q.answer < |q.choices|
  {
    forall j | 0 <= j < |q.choices| && ChoiceId(j) == ChoiceId(q.answer)
      ensures j == q.answer
    {
      ChoiceIdInjective(j, q.answer);
    }
    if 0 <= q.answer < |q.choices| {
      var j: int := q.answer;
      assert ChoiceId(j) == ChoiceId(q.answer);
    }
  }

  // ---------------------------------------------------------------------------
  // The meta file

  const XmlDecl: string := "<?xml version=\"1.0\" encoding=\"UTF-8\"?>"
  const MetaHead: string :=
    XmlDecl
    + "\n<quiz ident=\"lettering_manual_quiz\">  "
    + "\n  <title>Lettering manual quiz</title>"
    + "\n  "
  const MetaTail: string := "\n</quiz>"
  const RefSep: string := "\n  "
  const RefOpen: string := "<item_ref linkrefid=\""
  const RefClose: string := "\" />"

  function ItemRef(id: string): string {
    RefOpen + id + RefClose
  }

  /** `questions.map((_, i) => ...)`: one reference per question. */
  function ItemRefs(qs: seq<Question>): seq<string> {
    seq(|qs|, i requires 0 <= i => ItemRef(ItemId(i)))
  }

  /** The text of `assessment_meta.xml`. */
  function MetaXml(qs: seq<Question>): string {
    MetaHead + Join(ItemRefs(qs), RefSep) + MetaTail
  }

  /** The ids listed by the meta file for `n` questions, in question order. */
  function ItemIds(n: nat): (ids: seq<string>)
    ensures |ids| == n && forall i :: 0 <= i < n ==> ids[i] == ItemId(i)
  {
    seq(n, i requires 0 <= i => ItemId(i))
  }

  // Reading the meta file back: the partner of MetaXml.

  function ReadRef(p: string): Option<string> {
    if |p| >= |RefOpen| + |RefClose| && p[..|RefOpen|] == RefOpen && p[|p| - |RefClose|..] == RefClose
    then Some(p[|RefOpen|..|p| - |RefClose|])
    else None
  }

  /** Splits at each line break followed by the separator's two blanks and
      reads one reference per piece. */
  function ReadRefs(m: string): Option<seq<string>>
    decreases |m|
  {
    match IndexOf(m, '\n')
    case None =>
      (match ReadRef(m)
       case None => None
       case Some(id) => Some([id]))
    case Some(k) =>
      if k + |RefSep| <= |m| && m[k..k + |RefSep|] == RefSep then
        match ReadRef(m[..k])
        case None => None
        case Some(id) =>
          match ReadRefs(m[k + |RefSep|..])
          case None => None
          case Some(ids) => Some([id] + ids)
      else None
  }

  /** The `linkrefid` values a meta text lists, in order, or None when the
      text is not laid out as a meta file. */
  function ReadMeta(s: string): Option<seq<string>> {
    if |s| >= |MetaHead| + |MetaTail| && s[..|MetaHead|] == MetaHead && s[|s| - |MetaTail|..] == MetaTail
    then
      var m := s[|MetaHead|..|s| - |MetaTail|];
      if m == "" then Some([]) else ReadRefs(m)
    else None
  }

  predicate NoChar(s: string, c: char) {
    forall k :: 0 <= k < |s| ==> s[k] != c
  }

  lemma IndexOfAfter(a: string, b: string, c: char)
    requires NoChar(a, c) && |b| > 0 && b[0] == c
    ensures IndexOf(a + b, c) == Some(|a|)
    decreases |a|
  {
    if a != [] {
      assert (a + b)[1..] == a[1..] + b;
      IndexOfAfter(a[1..], b, c);
    }
  }

  lemma IndexOfNone(a: string, c: char)
    requires NoChar(a, c)
    ensures IndexOf(a, c) == None
    decreases |a|
  {
    if a != [] {
      IndexOfNone(a[1..], c);
    }
  }

  lemma LastIndexOfBefore(a: string, b: string, c: char)
    requires NoChar(b, c) && |a| > 0 && a[|a| - 1] == c
    ensures LastIndexOf(a + b, c) == Some(|a| - 1)
    decreases |b|
  {
    if b != [] {
      assert (a + b)[..|a + b| - 1] == a + b[..|b| - 1];
      LastIndexOfBefore(a, b[..|b| - 1], c);
    } else {
      assert a + b == a;
    }
  }

  lemma Parts(x: string, y: string)
    ensures |x + y| == |x| + |y| && (x + y)[..|x|] == x && (x + y)[|x|..] == y
  {
  }

  lemma Assoc(a: string, b: string, c: string)
    ensures (a + b) + c == a + (b + c)
  {
  }

  lemma ReadRefOf(id: string)
    ensures ReadRef(ItemRef(id)) == Some(id)
  {
    var p := ItemRef(id);
    Parts(RefOpen + id, RefClose);
    Parts(RefOpen, id);
  }

  lemma DigitsNoChar(n: nat, c: char)
    requires !IsDigit(c)
    ensures NoChar(Digits(n), c)
  {
  }

  lemma PrefixedNoChar(p: string, s: string, c: char)
    requires NoChar(p, c) && NoChar(s, c)
    ensures NoChar(p + s, c)
  {
    forall k | 0 <= k < |p + s| ensures (p + s)[k] != c {
      if k >= |p| {
        assert (p + s)[k] == s[k - |p|];
      }
    }
  }

  lemma ItemIdNoChar(i: nat, c: char)
    requires !IsDigit(c) && c != 'q'
    ensures NoChar(ItemId(i), c)
  {
    DigitsNoChar(i + 1, c);
    PrefixedNoChar("q", Digits(i + 1), c);
  }

  lemma ReadRefsStep(head: string, tail: string)
    requires NoChar(head, '\n')
    ensures ReadRefs(head + RefSep + tail)
            == match ReadRef(head)
               case None => None
               case Some(id) =>
                 match ReadRefs(tail)
                 case None => None
                 case Some(ids) => Some([id] + ids)
  {
    var m := head + RefSep + tail;
    Assoc(head, RefSep, tail);
    IndexOfAfter(head, RefSep + tail, '\n');
    Parts(head, RefSep + tail);
    Parts(RefSep, tail);
  }

  lemma ItemRefNoNewline(id: string)
    requires NoChar(id, '\n')
    ensures NoChar(ItemRef(id), '\n')
  {
    PrefixedNoChar(RefOpen, id, '\n');
    PrefixedNoChar(RefOpen + id, RefClose, '\n');
  }

  /** Reading the joined references gives back, in order, the id each
      reference holds. */
  lemma {:induction false} ReadRefsJoin(refs: seq<string>, ids: seq<string>)
    requires |refs| == |ids| > 0
    requires forall k :: 0 <= k < |refs| ==> NoChar(refs[k], '\n') && ReadRef(refs[k]) == Some(ids[k])
    ensures ReadRefs(Join(refs, RefSep)) == Some(ids)
    decreases |refs|
  {
    if |refs| == 1 {
      IndexOfNone(refs[0], '\n');
      assert ids == [ids[0]];
    } else {
      ReadRefsStep(refs[0], Join(refs[1..], RefSep));
      ReadRefsJoin(refs[1..], ids[1..]);
      assert ids == [ids[0]] + ids[1..];
    }
  }

  /** The meta file lists exactly the ids `q1 .. qn`, in question order. */
  lemma ReadMetaXml(qs: seq<Question>)
    ensures ReadMeta(MetaXml(qs)) == Some(ItemIds(|qs|))
  {
    var s := MetaXml(qs);
    var body := Join(ItemRefs(qs), RefSep);
    Parts(MetaHead + body, MetaTail);
    Parts(MetaHead, body);
    if |qs| == 0 {
      assert body == "";
    } else {
      var ids := ItemIds(|qs|);
      var refs := ItemRefs(qs);
      forall k | 0 <= k < |refs| ensures NoChar(refs[k], '\n') && ReadRef(refs[k]) == Some(ids[k]) {
        ItemIdNoChar(k, '\n');
        ItemRefNoNewline(ItemId(k));
        ReadRefOf(ItemId(k));
      }
      ReadRefsJoin(refs, ids);
      assert body != "";
    }
  }

  /** The meta text depends on the number of questions only. */
  lemma MetaDependsOnCountOnly(qs: seq<Question>, ps: seq<Question>)
    requires |qs| == |ps|
    ensures MetaXml(qs) == MetaXml(ps)
  {
    assert ItemRefs(qs) == ItemRefs(ps);
  }

  // ---------------------------------------------------------------------------
  // One item

  const IdentOpen: string :=
    XmlDecl
    + "\n<questestinterop>"
    + "\n  <item ident=\""

  /** Everything before the prompt; it carries the item's ident and title. */
  function ItemPrologue(i: nat): string {
    IdentOpen + ItemId(i) + PrologueTail(i)
  }

  const TitleOpen: string := "\" title=\"Question "
  const MattextOpen: string := "<mattext texttype=\"text/plain\">"
  const MattextClose: string := "</mattext>"
  const PresentationOpen: string :=
    "\">  "
    + "\n    <presentation>"
    + "\n      <material>"
    + "\n        "
  const PromptOpen: string := PresentationOpen + MattextOpen

  function PrologueTail(i: nat): (t: string)
    ensures |t| > 0 && t[0] == '"'
  {
    TitleOpen + Digits(i + 1) + PromptOpen
  }

  const PromptClose: string :=
    MattextClose
    + "\n      </material>"
    + "\n      "

  const LidIdent: string := "<response_lid ident=\""
  const LidRest: string :=
    "\" rcardinality=\"Single\">  "
    + "\n        <render_choice>"
    + "\n          "

  function ResponseLidOpen(rid: string): string {
    LidIdent + rid + LidRest
  }

  const LabelsClose: string :=
    "\n        </render_choice>"
    + "\n      </response_lid>"
    + "\n    </presentation>"
    + "\n    <resprocessing>"
    + "\n      <outcomes>"
    + "\n        <decvar maxvalue=\"100\" minvalue=\"0\" varname=\"SCORE\" vartype=\"Decimal\" />"
    + "\n      </outcomes>"
    + "\n      <respcondition continue=\"No\">  "
    + "\n        <conditionvar>"
    + "\n          "

  const VarEqualKey: string := "<varequal respident="

  const ScoringClose: string :=
    "</varequal>"
    + "\n        </conditionvar>"
    + "\n        <setvar action=\"Set\">100</setvar>"
    + "\n      </respcondition>"
    + "\n    </resprocessing>"
    + "\n  </item>"
    + "\n</questestinterop>"

  /** The condition that awards 100 when response `rid` selects `cid`. */
  function Scoring(rid: string, cid: string): string {
    VarEqualKey + "\"" + rid + "\"" + ">" + cid + ScoringClose
  }

  const LabelOpen: string := "\n          <response_label ident=\""
  const LabelText: string :=
    "\">  "
    + "\n            <material><mattext texttype=\"text/plain\">"
  const LabelClose: string :=
    "</mattext></material>"
    + "\n          </response_label>"

  /** The `response_label` for the choice at position `j` with text `c`. */
  function Label(j: nat, c: string): string {
    LabelOpen + ChoiceId(j) + LabelText + c + LabelClose
  }

  /** One `response_label` per choice, in choice order: the `map` over
      `q.choices`. */
  function Labels(cs: seq<string>): (ls: seq<string>)
    ensures |ls| == |cs| && forall j :: 0 <= j < |cs| ==> ls[j] == Label(j, cs[j])
  {
    seq(|cs|, j requires 0 <= j < |cs| => Label(j, cs[j]))
  }

  /** `q.choices.map((c, j) => ...).join("")`. */
  function ChoiceLabels(cs: seq<string>): string {
    Join(Labels(cs), "")
  }

  /** How an item text is put together from its parts: the prologue, the
      prompt, the text closing the prompt, the `response_lid` opening tag,
      the choice labels and the rest. */
  function Assemble(p: string, prompt: string, pc: string, lid: string, labels: string, rest: string): string {
    p + (prompt + pc + lid + labels + rest)
  }

  /** The text of `qti_q{i+1}.xml.qti` for question `q` at position `i`. */
  function ItemXml(q: Question, i: nat): string {
    Assemble(ItemPrologue(i), q.question, PromptClose, ResponseLidOpen(ResponseId(i)), ChoiceLabels(q.choices),
      LabelsClose + Scoring(ResponseId(i), ChoiceId(q.answer)))
  }

  // Reading an item back. The prologue and the scoring tail hold no user
  // text, so the item ident can be read from the front and the scoring
  // condition from the back; the middle cannot be read back in general,
  // because prompt and choice texts are not escaped.

  /** The `ident` of the `<item>` a QTI text opens with. */
  function ReadItemIdent(x: string): Option<string> {
    if |x| >= |IdentOpen| && x[..|IdentOpen|] == IdentOpen then
      match IndexOf(x[|IdentOpen|..], '"')
      case None => None
      case Some(k) => Some(x[|IdentOpen|..][..k])
    else None
  }

  /** `x` without its suffix `t`, if it ends with `t`. */
  function StripSuffix(x: string, t: string): Option<string> {
    if |x| >= |t| && x[|x| - |t|..] == t then Some(x[..|x| - |t|]) else None
  }

  /** The text before and after the last `c` in `s`. */
  function SplitLast(s: string, c: char): Option<(string, string)> {
    match LastIndexOf(s, c)
    case None => None
    case Some(k) => Some((s[..k], s[k + 1..]))
  }

  /** The `respident` of the final scoring condition and the choice ident it
      compares against, read from the end of an item text. */
  function ReadScoring(x: string): Option<(string, string)> {
    match StripSuffix(x, ScoringClose)
    case None => None
    case Some(body) =>
      match SplitLast(body, '>')
      case None => None
      case Some((before, cid)) =>
        match StripSuffix(before, "\"")
        case None => None
        case Some(inner) =>
          match SplitLast(inner, '"')
          case None => None
          case Some((head, rid)) =>
            if StripSuffix(head, VarEqualKey).Some? then Some((rid, cid)) else None
  }

  lemma StripSuffixOf(a: string, t: string)
    ensures StripSuffix(a + t, t) == Some(a)
  {
    Parts(a, t);
  }

  lemma SplitLastOf(a: string, c: char, b: string)
    requires NoChar(b, c)
    ensures SplitLast(a + [c] + b, c) == Some((a, b))
  {
    var s := a + [c] + b;
    LastIndexOfBefore(a + [c], b, c);
    Parts(a + [c], b);
    assert s[..|a|] == a;
    assert s[|a| + 1..] == b;
  }

  lemma ReadItemIdentOf(id: string, rest: string)
    requires NoChar(id, '"') && |rest| > 0 && rest[0] == '"'
    ensures ReadItemIdent(IdentOpen + id + rest) == Some(id)
  {
    Assoc(IdentOpen, id, rest);
    Parts(IdentOpen, id + rest);
    IndexOfAfter(id, rest, '"');
    Parts(id, rest);
  }

  /** The item stored for position `i` opens with ident `q{i+1}`, the same
      id the meta file lists at position `i`. */
  lemma ReadItemIdentXml(q: Question, i: nat)
    ensures ReadItemIdent(ItemXml(q, i)) == Some(ItemId(i))
  {
    var body := q.question + PromptClose + ResponseLidOpen(ResponseId(i)) + ChoiceLabels(q.choices)
      + (LabelsClose + Scoring(ResponseId(i), ChoiceId(q.answer)));
    Assoc(IdentOpen + ItemId(i), PrologueTail(i), body);
    ItemIdNoChar(i, '"');
    ReadItemIdentOf(ItemId(i), PrologueTail(i) + body);
  }

  lemma IntTextNoChar(a: int, c: char)
    requires !IsDigit(c) && c != '-'
    ensures NoChar(IntText(a), c)
  {
    if a < 0 {
      DigitsNoChar(-a, c);
      PrefixedNoChar("-", Digits(-a), c);
    } else {
      DigitsNoChar(a, c);
    }
  }

  /** A text ending in the scoring condition, cut where ReadScoring cuts it. */
  lemma ScoringShape(a: string, key: string, rid: string, cid: string, close: string)
    ensures a + (key + "\"" + rid + "\"" + ">" + cid + close) == (a + key + ['"'] + rid + "\"" + ['>'] + cid) + close
  {
    var m := key + "\"" + rid + "\"" + ">" + cid;
    Assoc(a, m, close);
    assert a + m == a + key + ['"'] + rid + "\"" + ['>'] + cid;
  }

  lemma ReadScoringOf(a: string, rid: string, cid: string)
    requires NoChar(rid, '"') && NoChar(cid, '>')
    ensures ReadScoring(a + Scoring(rid, cid)) == Some((rid, cid))
  {
    var head := a + VarEqualKey;
    var inner := head + ['"'] + rid;
    var before := inner + "\"";
    var body := before + ['>'] + cid;
    ScoringShape(a, VarEqualKey, rid, cid, ScoringClose);
    StripSuffixOf(body, ScoringClose);
    SplitLastOf(before, '>', cid);
    StripSuffixOf(inner, "\"");
    SplitLastOf(head, '"', rid);
    StripSuffixOf(a, VarEqualKey);
  }

  lemma AtPrefix(a: string, b: string)
    ensures At(a + b, 0, a)
  {
    Parts(a, b);
  }

  lemma AtSuffix(a: string, b: string)
    ensures At(a + b, |a|, b)
  {
    Parts(a, b);
  }

  lemma AtExtend(x: string, k: nat, f: string, y: string)
    requires At(x, k, f)
    ensures At(x + y, k, f)
  {
    assert (x + y)[k..k + |f|] == x[k..k + |f|];
  }

  lemma AtShift(p: string, x: string, k: nat, f: string)
    requires At(x, k, f)
    ensures At(p + x, |p| + k, f)
  {
    assert (p + x)[|p| + k..|p| + k + |f|] == x[k..k + |f|];
  }

  /** Splitting an assembled text before the last part of its rest. */
  lemma AssembleBack(p: string, prompt: string, pc: string, lid: string, labels: string, l: string, t: string)
    ensures Assemble(p, prompt, pc, lid, labels, l + t) == (p + (prompt + pc + lid + labels + l)) + t
  {
    var m := prompt + pc + lid + labels;
    Assoc(m, l, t);
    Assoc(p, m + l, t);
  }

  /** The scoring condition read back from item `i`: it tests
      `response{i+1}` against `choice{answer}`. */
  lemma ItemScoring(q: Question, i: nat)
    ensures ReadScoring(ItemXml(q, i)) == Some((ResponseId(i), ChoiceId(q.answer)))
  {
    var rid := ResponseId(i);
    var cid := ChoiceId(q.answer);
    var lid := ResponseLidOpen(rid);
    var labels := ChoiceLabels(q.choices);
    AssembleBack(ItemPrologue(i), q.question, PromptClose, lid, labels, LabelsClose, Scoring(rid, cid));
    DigitsNoChar(i + 1, '"');
    PrefixedNoChar("response", Digits(i + 1), '"');
    IntTextNoChar(q.answer, '>');
    PrefixedNoChar("choice", IntText(q.answer), '>');
    ReadScoringOf(ItemPrologue(i) + (q.question + PromptClose + lid + labels + LabelsClose), rid, cid);
  }

  /** Where the parts of an assembled text sit. */
  lemma AssembleLayout(p: string, prompt: string, pc: string, lid: string, labels: string, rest: string)
    ensures At(Assemble(p, prompt, pc, lid, labels, rest), 0, p)
    ensures At(Assemble(p, prompt, pc, lid, labels, rest), |p|, prompt)
    ensures At(Assemble(p, prompt, pc, lid, labels, rest), |p| + |prompt|, pc)
    ensures At(Assemble(p, prompt, pc, lid, labels, rest), |p| + |prompt| + |pc|, lid)
    ensures At(Assemble(p, prompt, pc, lid, labels, rest), |p| + |prompt| + |pc| + |lid|, labels)
  {
    var promptEnd := prompt + pc;
    var upToLid := promptEnd + lid;
    var upToLabels := upToLid + labels;
    var body := upToLabels + rest;
    AtPrefix(p, body);
    AtPrefix(prompt, pc);
    AtExtend(promptEnd, 0, prompt, lid);
    AtExtend(upToLid, 0, prompt, labels);
    AtExtend(upToLabels, 0, prompt, rest);
    AtShift(p, body, 0, prompt);
    AtSuffix(prompt, pc);
    AtExtend(promptEnd, |prompt|, pc, lid);
    AtExtend(upToLid, |prompt|, pc, labels);
    AtExtend(upToLabels, |prompt|, pc, rest);
    AtShift(p, body, |prompt|, pc);
    AtSuffix(promptEnd, lid);
    AtExtend(upToLid, |promptEnd|, lid, labels);
    AtExtend(upToLabels, |promptEnd|, lid, rest);
    AtShift(p, body, |promptEnd|, lid);
    AtSuffix(upToLid, labels);
    AtExtend(upToLabels, |upToLid|, labels, rest);
    AtShift(p, body, |upToLid|, labels);
  }

  /** The head of the rest follows the labels directly. */
  lemma AssembleRestHead(p: string, prompt: string, pc: string, lid: string, labels: string, l: string, t: string)
    ensures At(Assemble(p, prompt, pc, lid, labels, l + t), |p| + |prompt| + |pc| + |lid| + |labels|, l)
  {
    var m := prompt + pc + lid + labels;
    AtPrefix(l, t);
    AtShift(m, l + t, 0, l);
    AtShift(p, m + (l + t), |m|, l);
  }

  /** The text after the labels opens by closing `render_choice`. */
  lemma LabelsCloseClosesRenderChoice()
    ensures At(LabelsClose, |"\n        "|, "</render_choice>")
  {
    var head := "\n        </render_choice>";
    var rest := LabelsClose[|head|..];
    assert LabelsClose == head + rest;
    AtSuffix("\n        ", "</render_choice>");
    AtExtend(head, |"\n        "|, "</render_choice>", rest);
  }

  /** Where the parts of an item sit: the prologue (holding the ident) first,
      then the prompt verbatim, then the text closing the prompt's mattext,
      then the `response_lid` opening tag naming `response{i+1}`, then the
      choice labels, and after them the text that closes `render_choice`. */
  lemma ItemLayout(q: Question, i: nat)
    ensures At(ItemXml(q, i), 0, ItemPrologue(i))
    ensures At(ItemXml(q, i), |ItemPrologue(i)|, q.question)
    ensures At(ItemXml(q, i), |ItemPrologue(i)| + |q.question|, PromptClose)
    ensures At(ItemXml(q, i), |ItemPrologue(i)| + |q.question| + |PromptClose|, ResponseLidOpen(ResponseId(i)))
    ensures At(ItemXml(q, i), |ItemPrologue(i)| + |q.question| + |PromptClose| + |ResponseLidOpen(ResponseId(i))|,
               ChoiceLabels(q.choices))
    ensures At(ItemXml(q, i), |ItemPrologue(i)| + |q.question| + |PromptClose| + |ResponseLidOpen(ResponseId(i))|
                              + |ChoiceLabels(q.choices)|, LabelsClose)
  {
    AssembleLayout(ItemPrologue(i), q.question, PromptClose, ResponseLidOpen(ResponseId(i)), ChoiceLabels(q.choices),
      LabelsClose + Scoring(ResponseId(i), ChoiceId(q.answer)));
    AssembleRestHead(ItemPrologue(i), q.question, PromptClose, ResponseLidOpen(ResponseId(i)), ChoiceLabels(q.choices),
      LabelsClose, Scoring(ResponseId(i), ChoiceId(q.answer)));
  }

  lemma EndsWith(x: string, y: string, z: string, m: string)
    ensures |x + (y + (z + m))| >= |m|
    ensures At(x + (y + (z + m)), |x + (y + (z + m))| - |m|, m)
  {
    Assoc(y, z, m);
    Assoc(x, y + z, m);
    AtSuffix(x + (y + z), m);
  }

  /** The prologue ends by opening the prompt's `mattext`. */
  lemma PrologueOpensMattext(i: nat)
    ensures |ItemPrologue(i)| >= |MattextOpen|
    ensures At(ItemPrologue(i), |ItemPrologue(i)| - |MattextOpen|, MattextOpen)
  {
    EndsWith(IdentOpen + ItemId(i), TitleOpen + Digits(i + 1), PresentationOpen, MattextOpen);
  }

  lemma PromptCloseClosesMattext()
    ensures At(PromptClose, 0, MattextClose)
  {
    var rest := "\n      </material>";
    AtPrefix(MattextClose, rest);
    AtExtend(MattextClose + rest, 0, MattextClose, "\n      ");
  }

  /** An assembled text whose prologue ends with `mo` and whose prompt closing
      text starts with `mc` has the prompt right between the two. */
  lemma AssembleBetween(p: string, prompt: string, pc: string, lid: string, labels: string, rest: string,
                        mo: string, mc: string)
    requires |p| >= |mo| && At(p, |p| - |mo|, mo) && At(pc, 0, mc)
    ensures At(Assemble(p, prompt, pc, lid, labels, rest), |p| - |mo|, mo)
    ensures At(Assemble(p, prompt, pc, lid, labels, rest), |p|, prompt)
    ensures At(Assemble(p, prompt, pc, lid, labels, rest), |p| + |prompt|, mc)
  {
    var x := Assemble(p, prompt, pc, lid, labels, rest);
    AssembleLayout(p, prompt, pc, lid, labels, rest);
    AtCompose(x, 0, p, |p| - |mo|, mo);
    AtCompose(x, |p| + |prompt|, pc, 0, mc);
  }

  /** PromptInMattext for any text after the prompt's closing text. */
  lemma PrologueAndCloseAround(i: nat, prompt: string, lid: string, labels: string, rest: string)
    ensures |ItemPrologue(i)| >= |MattextOpen|
    ensures At(Assemble(ItemPrologue(i), prompt, PromptClose, lid, labels, rest), |ItemPrologue(i)| - |MattextOpen|, MattextOpen)
    ensures At(Assemble(ItemPrologue(i), prompt, PromptClose, lid, labels, rest), |ItemPrologue(i)|, prompt)
    ensures At(Assemble(ItemPrologue(i), prompt, PromptClose, lid, labels, rest), |ItemPrologue(i)| + |prompt|, MattextClose)
  {
    PrologueOpensMattext(i);
    PromptCloseClosesMattext();
    AssembleBetween(ItemPrologue(i), prompt, PromptClose, lid, labels, rest, MattextOpen, MattextClose);
  }

  /** The prompt is the whole content of the item's `mattext` element: it
      comes right after `<mattext texttype="text/plain">` and right before
      `</mattext>`. */
  lemma PromptInMattext(q: Question, i: nat)
    ensures |ItemPrologue(i)| >= |MattextOpen|
    ensures At(ItemXml(q, i), |ItemPrologue(i)| - |MattextOpen|, MattextOpen)
    ensures At(ItemXml(q, i), |ItemPrologue(i)|, q.question)
    ensures At(ItemXml(q, i), |ItemPrologue(i)| + |q.question|, MattextClose)
  {
    PrologueAndCloseAround(i, q.question, ResponseLidOpen(ResponseId(i)), ChoiceLabels(q.choices),
      LabelsClose + Scoring(ResponseId(i), ChoiceId(q.answer)));
  }

  /** Cross-references inside one item: the `respident` the scoring condition
      tests is the ident written in the item's `response_lid` opening tag. */
  lemma ResponseIdentsAgree(q: Question, i: nat)
    ensures ReadScoring(ItemXml(q, i)).Some?
    ensures At(ItemXml(q, i), |ItemPrologue(i)| + |q.question| + |PromptClose|,
               ResponseLidOpen(ReadScoring(ItemXml(q, i)).value.0))
  {
    ItemScoring(q, i);
    ItemLayout(q, i);
  }

  // ---------------------------------------------------------------------------
  // Choice labels

  /** Joining with the empty separator writes the strings one after the
      other. */
  lemma {:induction false} JoinEmpty(xs: seq<string>)
    ensures Join(xs, "") == Concat(xs)
    decreases |xs|
  {
    if |xs| == 1 {
      assert Concat(xs[1..]) == "";
    } else if |xs| > 1 {
      JoinEmpty(xs[1..]);
      assert xs[0] + "" == xs[0];
    }
  }

  /** The concatenation of two runs of strings is the concatenation of the
      joined run. */
  lemma {:induction false} ConcatAppend(xs: seq<string>, ys: seq<string>)
    ensures Concat(xs + ys) == Concat(xs) + Concat(ys)
    decreases |xs|
  {
    if xs == [] {
      assert xs + ys == ys;
    } else {
      var head, tail, rest := xs[0], Concat(xs[1..]), Concat(ys);
      calc {
        Concat(xs + ys);
        { assert (xs + ys)[0] == xs[0] && (xs + ys)[1..] == xs[1..] + ys; }
        head + Concat(xs[1..] + ys);
        { ConcatAppend(xs[1..], ys); }
        head + (tail + rest);
        { Assoc(head, tail, rest); }
        (head + tail) + rest;
      }
    }
  }

  /** String `j` of `xs` comes right after the strings before it. */
  lemma ConcatAt(xs: seq<string>, j: nat)
    requires j < |xs|
    ensures At(Concat(xs), |Concat(xs[..j])|, xs[j])
  {
    assert xs == xs[..j] + xs[j..];
    ConcatAppend(xs[..j], xs[j..]);
    var pre, x, post := Concat(xs[..j]), xs[j], Concat(xs[j + 1..]);
    assert xs[j..][0] == x && xs[j..][1..] == xs[j + 1..];
    AtSuffix(pre, x);
    AtExtend(pre + x, |pre|, x, post);
    Assoc(pre, x, post);
  }

  /** The labels of the first `j` choices are the first `j` labels. */
  lemma LabelsPrefix(cs: seq<string>, j: nat)
    requires j <= |cs|
    ensures Labels(cs[..j]) == Labels(cs)[..j]
  {
  }

  /** Labels follow choice order: the label of choice `j`, with ident
      `choice{j}` and the choice text verbatim, comes directly after the
      labels of the choices before it. */
  lemma LabelsInChoiceOrder(cs: seq<string>, j: nat)
    requires j < |cs|
    ensures At(ChoiceLabels(cs), |ChoiceLabels(cs[..j])|, Label(j, cs[j]))
  {
    JoinEmpty(Labels(cs));
    JoinEmpty(Labels(cs[..j]));
    LabelsPrefix(cs, j);
    ConcatAt(Labels(cs), j);
  }

  lemma AtCompose(x: string, k: nat, f: string, m: nat, g: string)
    requires At(x, k, f) && At(f, m, g)
    ensures At(x, k + m, g)
  {
    forall t | 0 <= t < |g| ensures x[k + m + t] == g[t] {
      assert g[t] == f[m + t] == x[k..k + |f|][m + t];
    }
    assert x[k + m..k + m + |g|] == g;
  }

  /** Text found in the labels part of an assembled text, and where it sits
      in the whole. */
  lemma AssembleInLabels(p: string, prompt: string, pc: string, lid: string, labels: string, rest: string,
                         m: nat, g: string)
    requires At(labels, m, g)
    ensures At(Assemble(p, prompt, pc, lid, labels, rest), |p| + |prompt| + |pc| + |lid| + m, g)
  {
    AssembleLayout(p, prompt, pc, lid, labels, rest);
    AtCompose(Assemble(p, prompt, pc, lid, labels, rest), |p| + |prompt| + |pc| + |lid|, labels, m, g);
  }

  /** Where the label of choice `j` sits in an assembled text. */
  lemma AssembleLabel(p: string, prompt: string, pc: string, lid: string, cs: seq<string>, rest: string, j: nat)
    requires j < |cs|
    ensures At(Assemble(p, prompt, pc, lid, ChoiceLabels(cs), rest),
               |p| + |prompt| + |pc| + |lid| + |ChoiceLabels(cs[..j])|, Label(j, cs[j]))
  {
    LabelsInChoiceOrder(cs, j);
    AssembleInLabels(p, prompt, pc, lid, ChoiceLabels(cs), rest, |ChoiceLabels(cs[..j])|, Label(j, cs[j]));
  }

  /** Every choice is offered in the item: the label of choice `j` sits in the
      item text, after the labels of the choices before it. */
  lemma ItemOffersChoice(q: Question, i: nat, j: nat)
    requires j < |q.choices|
    ensures At(ItemXml(q, i),
               |ItemPrologue(i)| + |q.question| + |PromptClose| + |ResponseLidOpen(ResponseId(i))|
               + |ChoiceLabels(q.choices[..j])|,
               Label(j, q.choices[j]))
  {
    AssembleLabel(ItemPrologue(i), q.question, PromptClose, ResponseLidOpen(ResponseId(i)), q.choices,
      LabelsClose + Scoring(ResponseId(i), ChoiceId(q.answer)), j);
  }
}
