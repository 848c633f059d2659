/** `generateQTI`: the file tree written into the archive, and the loop that
    writes it. */
module Generator {
  import opened Decimal
  import opened Quiz
  import opened Qti
  import opened Archive

  const MetaPath: string := "assessment_meta.xml"
  const ContextPath: string := "context.xml"
  const ContextXml: string := "<context></context>"
  const SettingsPath: string := "course_settings.xml"
  const SettingsXml: string := "<course_settings></course_settings>"
  const ItemPathHead: string := "qti_q"
  const ItemPathTail: string := ".xml.qti"

  /** `qti_q${i + 1}.xml.qti`. */
  function ItemPath(i: nat): string {
    ItemPathHead + Digits(i + 1) + ItemPathTail
  }

  /** The paths `generateQTI` writes for `n` questions, in the order it
      writes them. */
  function PathList(n: nat): (ps: seq<string>)
    ensures |ps| == n + 3
    ensures ps[0] == MetaPath && ps[n + 1] == ContextPath && ps[n + 2] == SettingsPath
    ensures forall i :: 0 <= i < n ==> ps[i + 1] == ItemPath(i)
  {
    [MetaPath] + seq(n, i requires 0 <= i => ItemPath(i)) + [ContextPath, SettingsPath]
  }

  /** The `zip.file` calls for item texts `ts`, one per text, in order. */
  function ItemFiles(ts: seq<string>): (es: seq<Entry>)
    ensures |es| == |ts| && forall i :: 0 <= i < |ts| ==> es[i] == Entry(ItemPath(i), ts[i])
  {
    seq(|ts|, i requires 0 <= i < |ts| => Entry(ItemPath(i), ts[i]))
  }

  /** The `zip.file` calls for a meta text and the item texts `ts`, in call
      order: the meta file, one item file per text, then the two fixed files. */
  function Layout(meta: string, ts: seq<string>): (es: seq<Entry>)
    ensures |es| == |ts| + 3
    ensures es[0] == Entry(MetaPath, meta)
    ensures forall i :: 0 <= i < |ts| ==> es[i + 1] == Entry(ItemPath(i), ts[i])
    ensures es[|ts| + 1] == Entry(ContextPath, ContextXml) && es[|ts| + 2] == Entry(SettingsPath, SettingsXml)
  {
    seq(|ts| + 3, k requires 0 <= k < |ts| + 3 =>
      if k == 0 then Entry(MetaPath, meta)
      else if k <= |ts| then Entry(ItemPath(k - 1), ts[k - 1])
      else if k == |ts| + 1 then Entry(ContextPath, ContextXml)
      else Entry(SettingsPath, SettingsXml))
  }

  /** The calls of Layout, written the way `generateQTI` issues them. */
  lemma LayoutCalls(meta: string, ts: seq<string>)
    ensures [Entry(MetaPath, meta)] + ItemFiles(ts) + [Entry(ContextPath, ContextXml)] + [Entry(SettingsPath, SettingsXml)]
            == Layout(meta, ts)
  {
  }

  /** The text a template gives each question, in question order. */
  function Texts(qs: seq<Question>, template: (Question, nat) -> string): (ts: seq<string>)
    ensures |ts| == |qs| && forall i :: 0 <= i < |qs| ==> ts[i] == template(qs[i], i)
  {
    seq(|qs|, i requires 0 <= i < |qs| => template(qs[i], i))
  }

  /** The item text of each question, in question order. */
  function ItemTexts(qs: seq<Question>): (ts: seq<string>)
    ensures |ts| == |qs| && forall i :: 0 <= i < |qs| ==> ts[i] == ItemXml(qs[i], i)
  {
    Texts(qs, ItemXml)
  }

  /** Every `zip.file` call `generateQTI` makes, in the order it makes them. */
  function Entries(qs: seq<Question>): seq<Entry> {
    Layout(MetaXml(qs), ItemTexts(qs))
  }

  /** The archive's contents after `generateQTI` on `qs`. */
  function FileTree(qs: seq<Question>): map<string, string> {
    Stored(Entries(qs))
  }

  /** The archive's paths after `generateQTI` on `qs`, in JSZip's order. */
  function FileNames(qs: seq<Question>): seq<string> {
    Listed(Entries(qs))
  }

  /** `questions.forEach((q, i) => zip.file(...))`: writes, in question
      order, each question's file with the text `template` gives it. */
  method WriteItemFiles(zip: Zip, qs: seq<Question>, template: (Question, nat) -> string)
    modifies zip
    ensures zip.log == old(zip.log) + ItemFiles(Texts(qs, template))
    ensures old(zip.Valid()) ==> zip.Valid()
  {
    ghost var written := ItemFiles(Texts(qs, template));
    var i := 0;
    while i < |qs|
      invariant 0 <= i <= |qs|
      invariant zip.log == old(zip.log) + written[..i]
      invariant old(zip.Valid()) ==> zip.Valid()
    {
      var qti := template(qs[i], i);
      zip.File(ItemPath(i), qti);
      assert written[..i + 1] == written[..i] + [Entry(ItemPath(i), qti)];
      i := i + 1;
    }
    assert written[..|qs|] == written;
  }

  /** `generateQTI` up to the compression: the meta file, the item files,
      then the two fixed files. */
  method GenerateQti(qs: seq<Question>) returns (names: seq<string>, files: map<string, string>)
    ensures names == FileNames(qs) && files == FileTree(qs)
  {
    var zip := new Zip();
    var meta := MetaXml(qs);
    zip.File(MetaPath, meta);
    assert zip.log == [Entry(MetaPath, meta)];
    WriteItemFiles(zip, qs, ItemXml);
    zip.File(ContextPath, ContextXml);
    zip.File(SettingsPath, SettingsXml);
    LayoutCalls(meta, Texts(qs, ItemXml));
    names, files := zip.names, zip.files;
  }

  // ---------------------------------------------------------------------------
  // Paths

  lemma ItemPathInjective(i: nat, k: nat)
    ensures ItemPath(i) == ItemPath(k) ==> i == k
  {
    if ItemPath(i) == ItemPath(k) {
      var p := ItemPath(i);
      assert Digits(i + 1) == p[|ItemPathHead|..|p| - |ItemPathTail|];
      assert Digits(k + 1) == p[|ItemPathHead|..|p| - |ItemPathTail|];
      DigitsInjective(i + 1, k + 1);
    }
  }

  /** Item files are named after the ids the meta file lists. */
  lemma ItemPathOfId(i: nat)
    ensures ItemPath(i) == "qti_" + ItemId(i) + ItemPathTail
  {
  }

  lemma ItemPathStartsWithQ(i: nat)
    ensures |ItemPath(i)| > 2 && ItemPath(i)[0] == 'q'
  {
  }

  /** No path is written twice. */
  lemma PathListDistinct(n: nat)
    ensures Distinct(PathList(n))
  {
    var ps := PathList(n);
    forall a, b | 0 <= a < b < |ps| ensures ps[a] != ps[b] {
      if 1 <= a && b <= n {
        ItemPathInjective(a - 1, b - 1);
      } else if 1 <= a <= n {
        ItemPathStartsWithQ(a - 1);
        assert ps[b][0] == 'c';
      } else if a == 0 && b <= n {
        ItemPathStartsWithQ(b - 1);
        assert ps[a][0] == 'a';
      } else if a == 0 {
        assert ps[a][0] == 'a' && ps[b][0] == 'c';
      } else {
        assert a == n + 1 && b == n + 2;
        assert ps[a][2] == 'n' && ps[b][2] == 'u';
      }
    }
  }

  lemma PathListMembers(n: nat, p: string)
    ensures p in PathList(n) <==>
              p == MetaPath || p == ContextPath || p == SettingsPath
              || exists i :: 0 <= i < n && p == ItemPath(i)
  {
    var ps := PathList(n);
    if p in ps {
      var k :| 0 <= k < |ps| && ps[k] == p;
      if 1 <= k <= n {
        assert p == ItemPath(k - 1);
      }
    }
    if exists i :: 0 <= i < n && p == ItemPath(i) {
      var i :| 0 <= i < n && p == ItemPath(i);
      assert ps[i + 1] == p;
    }
  }

  /** The archive written from a meta text and item texts `ts`: the paths of
      PathList in that order, one file per path, each holding its text. */
  lemma LayoutStored(meta: string, ts: seq<string>)
    ensures Listed(Layout(meta, ts)) == PathList(|ts|)
    ensures forall p :: p in Stored(Layout(meta, ts)) <==> p in PathList(|ts|)
    ensures |Stored(Layout(meta, ts))| == |ts| + 3
    ensures Stored(Layout(meta, ts))[MetaPath] == meta
    ensures forall i :: 0 <= i < |ts| ==> Stored(Layout(meta, ts))[ItemPath(i)] == ts[i]
    ensures Stored(Layout(meta, ts))[ContextPath] == ContextXml
    ensures Stored(Layout(meta, ts))[SettingsPath] == SettingsXml
  {
    var es := Layout(meta, ts);
    var n := |ts|;
    LayoutPaths(meta, ts);
    StoredDistinct(es);
    StoredKeys(es);
    assert es[0].path == MetaPath;
    assert es[n + 1].path == ContextPath;
    assert es[n + 2].path == SettingsPath;
    forall i | 0 <= i < n ensures Stored(es)[ItemPath(i)] == ts[i] {
      assert es[i + 1].path == ItemPath(i);
    }
  }

  // ---------------------------------------------------------------------------
  // The file tree

  /** The archive holds exactly the meta file, `qti_q{i+1}.xml.qti` for each
      question and the two fixed files, `|qs| + 3` files in all (three for an
      empty list), listed in that order, each holding its template's text. */
  lemma FileTreeLayout(qs: seq<Question>)
    ensures forall p :: p in FileTree(qs) <==>
              p == MetaPath || p == ContextPath || p == SettingsPath
              || exists i :: 0 <= i < |qs| && p == ItemPath(i)
    ensures |FileTree(qs)| == |qs| + 3
    ensures FileNames(qs) == PathList(|qs|)
    ensures FileTree(qs)[MetaPath] == MetaXml(qs)
    ensures forall i :: 0 <= i < |qs| ==> FileTree(qs)[ItemPath(i)] == ItemXml(qs[i], i)
    ensures FileTree(qs)[ContextPath] == ContextXml
    ensures FileTree(qs)[SettingsPath] == SettingsXml
  {
    LayoutStored(MetaXml(qs), ItemTexts(qs));
    forall p ensures p in FileTree(qs) <==>
             p == MetaPath || p == ContextPath || p == SettingsPath
             || exists i :: 0 <= i < |qs| && p == ItemPath(i)
    {
      PathListMembers(|qs|, p);
    }
  }

  /** The meta file and the item files agree: the meta file lists the ids
      `q1 .. qn` in question order, and for each listed id the archive holds
      `qti_{id}.xml.qti`, whose item carries that same id. */
  lemma MetaMatchesItemFiles(qs: seq<Question>)
    ensures MetaPath in FileTree(qs) && ReadMeta(FileTree(qs)[MetaPath]) == Some(ItemIds(|qs|))
    ensures forall i :: 0 <= i < |qs| ==>
              "qti_" + ItemIds(|qs|)[i] + ItemPathTail in FileTree(qs)
              && ReadItemIdent(FileTree(qs)["qti_" + ItemIds(|qs|)[i] + ItemPathTail]) == Some(ItemIds(|qs|)[i])
  {
    FileTreeLayout(qs);
    ReadMetaXml(qs);
    forall i | 0 <= i < |qs|
      ensures "qti_" + ItemIds(|qs|)[i] + ItemPathTail in FileTree(qs)
      ensures ReadItemIdent(FileTree(qs)["qti_" + ItemIds(|qs|)[i] + ItemPathTail]) == Some(ItemIds(|qs|)[i])
    {
      ItemPathOfId(i);
      ReadItemIdentXml(qs[i], i);
    }
  }

  /** The file stored at the path of item text `i` holds that text. */
  lemma LayoutItem(meta: string, ts: seq<string>, i: nat)
    requires i < |ts|
    ensures ItemPath(i) in Stored(Layout(meta, ts)) && Stored(Layout(meta, ts))[ItemPath(i)] == ts[i]
  {
    var es := Layout(meta, ts);
    LayoutPaths(meta, ts);
    StoredDistinct(es);
    assert es[i + 1].path == ItemPath(i);
  }

  /** The file stored for question `i` is its item text. */
  lemma ItemFile(qs: seq<Question>, i: nat)
    requires i < |qs|
    ensures ItemPath(i) in FileTree(qs) && FileTree(qs)[ItemPath(i)] == ItemXml(qs[i], i)
  {
    LayoutItem(MetaXml(qs), ItemTexts(qs), i);
  }

  /** The item file of question `i` scores `response{i+1}` against
      `choice{answer}`. */
  lemma ItemFileScoring(qs: seq<Question>, i: nat)
    requires i < |qs|
    ensures ItemPath(i) in FileTree(qs)
    ensures ReadScoring(FileTree(qs)[ItemPath(i)]) == Some((ResponseId(i), ChoiceId(qs[i].answer)))
  {
    ItemFile(qs, i);
    ItemScoring(qs[i], i);
  }

  // ---------------------------------------------------------------------------
  // How the editor's handlers change the file tree

  lemma ItemPathNotFixed(i: nat)
    ensures ItemPath(i) != MetaPath && ItemPath(i) != ContextPath && ItemPath(i) != SettingsPath
  {
    ItemPathStartsWithQ(i);
    assert MetaPath[0] == 'a' && ContextPath[0] == 'c' && SettingsPath[0] == 'c';
  }

  lemma LayoutPaths(meta: string, ts: seq<string>)
    ensures Paths(Layout(meta, ts)) == PathList(|ts|)
    ensures Distinct(Paths(Layout(meta, ts)))
  {
    assert Paths(Layout(meta, ts)) == PathList(|ts|);
    PathListDistinct(|ts|);
  }

  /** The paths and their order depend on the number of item texts only. */
  lemma LayoutListed(meta: string, ts: seq<string>)
    ensures Listed(Layout(meta, ts)) == PathList(|ts|)
  {
    LayoutPaths(meta, ts);
    StoredDistinct(Layout(meta, ts));
  }

  /** Replacing one item text replaces that one file. */
  lemma LayoutEdit(meta: string, ts: seq<string>, k: nat, t: string)
    requires k < |ts|
    ensures Stored(Layout(meta, ts[k := t])) == Stored(Layout(meta, ts))[ItemPath(k) := t]
  {
    var es := Layout(meta, ts);
    assert Layout(meta, ts[k := t]) == es[k + 1 := Entry(es[k + 1].path, t)];
    LayoutPaths(meta, ts);
    StoredReplace(es, k + 1, t);
  }

  /** One more item text adds that one file, at a path not stored before; with
      a new meta text the meta file changes too, and nothing else does. */
  lemma LayoutAdd(meta: string, meta': string, ts: seq<string>, t: string)
    ensures ItemPath(|ts|) !in Stored(Layout(meta, ts))
    ensures Stored(Layout(meta', ts + [t])) == Stored(Layout(meta, ts))[MetaPath := meta'][ItemPath(|ts|) := t]
  {
    var n := |ts|;
    var es := Layout(meta, ts);
    var fs := Layout(meta', ts);
    var e := Entry(ItemPath(n), t);
    assert fs == es[0 := Entry(es[0].path, meta')];
    LayoutPaths(meta, ts);
    StoredReplace(es, 0, meta');
    assert Layout(meta', ts + [t]) == fs[..n + 1] + [e] + fs[n + 1..];
    assert fs[..n + 1] + fs[n + 1..] == fs;
    LayoutPaths(meta', ts + [t]);
    StoredInsert(fs[..n + 1], e, fs[n + 1..]);
    StoredKeys(es);
    PathListMembers(n, ItemPath(n));
    ItemPathNotFixed(n);
    forall i | 0 <= i < n ensures ItemPath(n) != ItemPath(i) {
      ItemPathInjective(n, i);
    }
  }

  /** A template's texts for two lists that differ at `k` only differ at `k`. */
  lemma TextsEdit(qs: seq<Question>, ps: seq<Question>, k: nat, template: (Question, nat) -> string)
    requires |ps| == |qs| && k < |qs|
    requires forall m :: 0 <= m < |qs| && m != k ==> ps[m] == qs[m]
    ensures Texts(ps, template) == Texts(qs, template)[k := template(ps[k], k)]
  {
  }

  /** A template's texts for a list with one more question have one more text. */
  lemma TextsAdd(qs: seq<Question>, q: Question, template: (Question, nat) -> string)
    ensures Texts(qs + [q], template) == Texts(qs, template) + [template(q, |qs|)]
  {
  }

  /** Adding a question adds one item file, for the new blank question, at a
      path not used before, and rewrites the meta file; every other file stays
      as it was. */
  lemma AddQuestionAddsOneFile(qs: seq<Question>)
    ensures ItemPath(|qs|) !in FileTree(qs)
    ensures FileTree(WithBlank(qs))
            == FileTree(qs)[MetaPath := MetaXml(WithBlank(qs))][ItemPath(|qs|) := ItemXml(WithBlank(qs)[|qs|], |qs|)]
  {
    var q := WithBlank(qs)[|qs|];
    TextsAdd(qs, q, ItemXml);
    LayoutAdd(MetaXml(qs), MetaXml(WithBlank(qs)), ItemTexts(qs), ItemXml(q, |qs|));
  }

  /** Editing question `k` rewrites only the item file of question `k`;
      every other file, meta file included, stays as it was. */
  lemma EditTouchesOneFile(qs: seq<Question>, ps: seq<Question>, k: nat)
    requires |ps| == |qs| && k < |qs|
    requires forall m :: 0 <= m < |qs| && m != k ==> ps[m] == qs[m]
    ensures FileTree(ps) == FileTree(qs)[ItemPath(k) := ItemXml(ps[k], k)]
  {
    MetaDependsOnCountOnly(qs, ps);
    TextsEdit(qs, ps, k, ItemXml);
    LayoutEdit(MetaXml(qs), ItemTexts(qs), k, ItemXml(ps[k], k));
  }

  /** The paths and their order depend on the number of questions only, so
      no edit of a question changes them. */
  lemma FileNamesByCount(qs: seq<Question>, ps: seq<Question>)
    requires |ps| == |qs|
    ensures FileNames(ps) == FileNames(qs)
  {
    LayoutListed(MetaXml(qs), ItemTexts(qs));
    LayoutListed(MetaXml(ps), ItemTexts(ps));
  }

  /** `handleQuestionChange(index, "question", v)` rewrites only the item file
      of question `index`. */
  lemma PromptEditTouchesOneFile(qs: seq<Question>, index: nat, v: string)
    requires index < |qs|
    ensures FileTree(WithPrompt(qs, index, v)) == FileTree(qs)[ItemPath(index) := ItemXml(WithPrompt(qs, index, v)[index], index)]
  {
    EditTouchesOneFile(qs, WithPrompt(qs, index, v), index);
  }

  /** `handleQuestionChange(index, j, v)` rewrites only the item file of
      question `index`. */
  lemma ChoiceEditTouchesOneFile(qs: seq<Question>, index: nat, j: nat, v: string)
    requires index < |qs| && j < |qs[index].choices|
    ensures FileTree(WithChoice(qs, index, j, v)) == FileTree(qs)[ItemPath(index) := ItemXml(WithChoice(qs, index, j, v)[index], index)]
  {
    EditTouchesOneFile(qs, WithChoice(qs, index, j, v), index);
  }

  /** `handleAnswerChange(index, a)` rewrites only the item file of question
      `index`. */
  lemma AnswerEditTouchesOneFile(qs: seq<Question>, index: nat, a: int)
    requires index < |qs|
    ensures FileTree(WithAnswer(qs, index, a)) == FileTree(qs)[ItemPath(index) := ItemXml(WithAnswer(qs, index, a)[index], index)]
  {
    EditTouchesOneFile(qs, WithAnswer(qs, index, a), index);
  }
}
