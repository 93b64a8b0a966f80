/** The FormData bodies the add and edit dialogs build
    (frontend/src/components/AddPassword.tsx and EditPassword.tsx): name and
    password, the image when a file was chosen, then every security question as
    two entries keyed by its position. */
module PasswordForms {
  import opened Wrappers
  import opened FormData
  import Text
  import opened PasswordValidation

  /** What the image field of the form holds: nothing, a chosen file, or some other
      value (only a File is sent). */
  datatype ImageValue = Undefined | FileValue(upload: Upload) | NotAFile

  datatype FormValues = FormValues(
    name: string,
    password: string,
    image: ImageValue,
    questions: Option<seq<QuestionAnswer>>)

  /** `questions[${index}][${field}]` */
  function QuestionKey(index: nat, field: string): string {
    "questions[" + Text.NatToString(index) + "][" + field + "]"
  }

  function QuestionPair(index: nat, q: QuestionAnswer): seq<Entry> {
    [Entry(QuestionKey(index, "question"), Text(q.question)), Entry(QuestionKey(index, "answer"), Text(q.answer))]
  }

  /** The entries of the questions, in order: question i yields its question text
      at position 2i and its answer at 2i + 1. */
  function QuestionEntries(qs: seq<QuestionAnswer>): (r: seq<Entry>)
    ensures |r| == 2 * |qs|
    ensures forall i :: 0 <= i < |qs| ==>
      r[2 * i] == Entry(QuestionKey(i, "question"), Text(qs[i].question)) &&
      r[2 * i + 1] == Entry(QuestionKey(i, "answer"), Text(qs[i].answer))
    decreases |qs|
  {
    if qs == [] then []
    else QuestionEntries(qs[..|qs| - 1]) + QuestionPair(|qs| - 1, qs[|qs| - 1])
  }

  function ImageEntries(image: ImageValue): seq<Entry> {
    if image.FileValue? then [Entry("image", File(image.upload))] else []
  }

  function QuestionsOrEmpty(v: FormValues): seq<QuestionAnswer> {
    if v.questions.Some? then v.questions.value else []
  }

  /** The body both dialogs submit for the same form values. */
  function SubmittedEntries(v: FormValues): seq<Entry> {
    [Entry("name", Text(v.name)), Entry("password", Text(v.password))] + ImageEntries(v.image) +
    QuestionEntries(QuestionsOrEmpty(v))
  }

  lemma QuestionEntriesSnoc(qs: seq<QuestionAnswer>, i: nat)
    requires i < |qs|
    ensures QuestionEntries(qs[..i + 1]) == QuestionEntries(qs[..i]) + QuestionPair(i, qs[i])
  {
    assert qs[..i + 1][..i] == qs[..i];
  }

  /** `questions.forEach((q, index) => ...)`: two appends per question, in order. */
  method AppendQuestions(before: seq<Entry>, qs: seq<QuestionAnswer>) returns (entries: seq<Entry>)
    ensures entries == before + QuestionEntries(qs)
  {
    entries := before;
    for i := 0 to |qs|
      invariant entries == before + QuestionEntries(qs[..i])
    {
      QuestionEntriesSnoc(qs, i);
      entries := entries + [Entry(QuestionKey(i, "question"), Text(qs[i].question))];
      entries := entries + [Entry(QuestionKey(i, "answer"), Text(qs[i].answer))];
    }
    assert qs[..|qs|] == qs;
  }

  /** name, password, and the image when it is a file. */
  method AppendFixedFields(v: FormValues) returns (entries: seq<Entry>)
    ensures entries == [Entry("name", Text(v.name)), Entry("password", Text(v.password))] + ImageEntries(v.image)
  {
    entries := [];
    entries := entries + [Entry("name", Text(v.name))];
    entries := entries + [Entry("password", Text(v.password))];
    if v.image.FileValue? {
      entries := entries + [Entry("image", File(v.image.upload))];
    }
  }

  /** AddPassword's onSubmit: questions are appended only when the list is present
      and non-empty. */
  method EncodeAddPassword(v: FormValues) returns (entries: seq<Entry>)
    ensures entries == SubmittedEntries(v)
  {
    entries := AppendFixedFields(v);
    if v.questions.Some? && |v.questions.value| > 0 {
      entries := AppendQuestions(entries, v.questions.value);
    } else {
      assert QuestionEntries(QuestionsOrEmpty(v)) == [];
      assert entries + [] == entries;
    }
  }

  /** EditPassword's onSubmit: `questions?.forEach`, with no length test; it sends
      exactly what AddPassword sends for the same values. */
  method EncodeEditPassword(v: FormValues) returns (entries: seq<Entry>)
    ensures entries == SubmittedEntries(v)
  {
    entries := AppendFixedFields(v);
    if v.questions.Some? {
      entries := AppendQuestions(entries, v.questions.value);
    } else {
      assert entries + [] == entries;
    }
  }

  /** The layout of the body: name, password, the image only for a file, then the
      questions in order, so 2 + (file ? 1 : 0) + 2 * |questions| entries. */
  lemma SubmittedLayout(v: FormValues)
    ensures var e := SubmittedEntries(v);
      var img := if v.image.FileValue? then 1 else 0;
      var qs := QuestionsOrEmpty(v);
      && |e| == 2 + img + 2 * |qs|
      && e[0] == Entry("name", Text(v.name))
      && e[1] == Entry("password", Text(v.password))
      && (v.image.FileValue? ==> e[2] == Entry("image", File(v.image.upload)))
      && (forall i :: 0 <= i < |qs| ==>
            e[2 + img + 2 * i] == Entry(QuestionKey(i, "question"), Text(qs[i].question)) &&
            e[2 + img + 2 * i + 1] == Entry(QuestionKey(i, "answer"), Text(qs[i].answer)))
  {
    var e := SubmittedEntries(v);
    var img := if v.image.FileValue? then 1 else 0;
    var qs := QuestionsOrEmpty(v);
    var head := [Entry("name", Text(v.name)), Entry("password", Text(v.password))] + ImageEntries(v.image);
    assert |head| == 2 + img;
    forall i | 0 <= i < |qs|
      ensures e[2 + img + 2 * i] == Entry(QuestionKey(i, "question"), Text(qs[i].question))
      ensures e[2 + img + 2 * i + 1] == Entry(QuestionKey(i, "answer"), Text(qs[i].answer))
    {
      assert e[2 + img + 2 * i] == QuestionEntries(qs)[2 * i];
      assert e[2 + img + 2 * i + 1] == QuestionEntries(qs)[2 * i + 1];
    }
  }

  /** Absent and empty question lists are sent alike. */
  lemma AbsentAndEmptyQuestionsEncodeAlike(v: FormValues)
    ensures SubmittedEntries(v.(questions := None)) == SubmittedEntries(v.(questions := Some([])))
    ensures |SubmittedEntries(v.(questions := None))| == if v.image.FileValue? then 3 else 2
  {
  }

  // ---------------------------------------------------------------------------
  // Every field can be read back by its key.
  // ---------------------------------------------------------------------------

  /** A number's digits followed by ']' determine the number. */
  lemma DigitsBeforeBracket(m: nat, n: nat, s: string, t: string)
    requires Text.NatToString(m) + "]" + s == Text.NatToString(n) + "]" + t
    ensures m == n && s == t
  {
    var a, b := Text.NatToString(m), Text.NatToString(n);
    var x, y := a + "]" + s, b + "]" + t;
    assert x[|a|] == ']' && y[|b|] == ']';
    assert forall k :: 0 <= k < |a| ==> x[k] == a[k];
    assert forall k :: 0 <= k < |b| ==> y[k] == b[k];
    assert |a| == |b|;
    assert a == x[..|a|] == y[..|b|] == b;
    Text.NatToStringInjective(m, n);
    assert s == x[|a| + 1..] == y[|b| + 1..] == t;
  }

  /** Different positions or different fields give different keys. */
  lemma QuestionKeyInjective(i: nat, j: nat, f: string, g: string)
    requires QuestionKey(i, f) == QuestionKey(j, g)
    ensures i == j && f == g
  {
    var p := "questions[";
    var x, y := QuestionKey(i, f), QuestionKey(j, g);
    assert x == p + (Text.NatToString(i) + "]" + ("[" + f + "]"));
    assert y == p + (Text.NatToString(j) + "]" + ("[" + g + "]"));
    assert x[|p|..] == Text.NatToString(i) + "]" + ("[" + f + "]");
    assert y[|p|..] == Text.NatToString(j) + "]" + ("[" + g + "]");
    DigitsBeforeBracket(i, j, "[" + f + "]", "[" + g + "]");
    var u, w := "[" + f + "]", "[" + g + "]";
    assert f == u[1..|u| - 1] == w[1..|w| - 1] == g;
  }

  /** No question key is one of the fixed keys. */
  lemma QuestionKeyIsNotFixed(i: nat, f: string)
    ensures QuestionKey(i, f) != "name" && QuestionKey(i, f) != "password" && QuestionKey(i, f) != "image"
  {
    assert |QuestionKey(i, f)| >= 13;
  }

  /** The key of every entry after the fixed fields is the question key of its position. */
  lemma QuestionEntryKeys(v: FormValues, k: nat)
    requires var img := if v.image.FileValue? then 1 else 0;
      2 + img <= k < |SubmittedEntries(v)|
    ensures var img := if v.image.FileValue? then 1 else 0;
      SubmittedEntries(v)[k].key ==
        QuestionKey((k - 2 - img) / 2, if (k - 2 - img) % 2 == 0 then "question" else "answer")
  {
    var img := if v.image.FileValue? then 1 else 0;
    var n := (k - 2 - img) / 2;
    SubmittedLayout(v);
    assert k == 2 + img + 2 * n || k == 2 + img + 2 * n + 1;
  }

  /** An entry before position `limit` differs in key from question `i`'s field
      `f`, when `limit` is at most that field's own position. */
  lemma EarlierKeysDiffer(v: FormValues, i: nat, f: string, k: nat)
    requires var img := if v.image.FileValue? then 1 else 0;
      k < |SubmittedEntries(v)| && k < 2 + img + 2 * i + (if f == "answer" then 1 else 0)
    requires f == "question" || f == "answer"
    ensures SubmittedEntries(v)[k].key != QuestionKey(i, f)
  {
    var img := if v.image.FileValue? then 1 else 0;
    SubmittedLayout(v);
    if k >= 2 + img {
      QuestionEntryKeys(v, k);
      var n := (k - 2 - img) / 2;
      if SubmittedEntries(v)[k].key == QuestionKey(i, f) {
        QuestionKeyInjective(n, i, if (k - 2 - img) % 2 == 0 then "question" else "answer", f);
      }
    } else {
      QuestionKeyIsNotFixed(i, f);
    }
  }

  /** Reading the submitted body back by key gives name, password and the image
      exactly when a file was chosen. */
  lemma FixedFieldsReadBack(v: FormValues)
    ensures var e := SubmittedEntries(v);
      && Get(e, "name") == Some(Text(v.name))
      && Get(e, "password") == Some(Text(v.password))
      && Get(e, "image") == (if v.image.FileValue? then Some(File(v.image.upload)) else None)
  {
    var e := SubmittedEntries(v);
    SubmittedLayout(v);
    GetFindsFirst(e, "name", 0);
    GetFindsFirst(e, "password", 1);
    if v.image.FileValue? {
      GetFindsFirst(e, "image", 2);
    } else {
      forall k | 0 <= k < |e| ensures e[k].key != "image" {
        if k >= 2 {
          QuestionEntryKeys(v, k);
          QuestionKeyIsNotFixed((k - 2) / 2, if (k - 2) % 2 == 0 then "question" else "answer");
        }
      }
    }
  }

  /** Reading back question `i`'s question or answer key gives its text. */
  lemma QuestionReadsBack(v: FormValues, i: nat)
    requires i < |QuestionsOrEmpty(v)|
    ensures var e := SubmittedEntries(v); var q := QuestionsOrEmpty(v)[i];
      && Get(e, QuestionKey(i, "question")) == Some(Text(q.question))
      && Get(e, QuestionKey(i, "answer")) == Some(Text(q.answer))
  {
    var e := SubmittedEntries(v);
    var img := if v.image.FileValue? then 1 else 0;
    SubmittedLayout(v);
    forall k | 0 <= k < 2 + img + 2 * i ensures e[k].key != QuestionKey(i, "question") {
      EarlierKeysDiffer(v, i, "question", k);
    }
    GetFindsFirst(e, QuestionKey(i, "question"), 2 + img + 2 * i);
    forall k | 0 <= k < 2 + img + 2 * i + 1 ensures e[k].key != QuestionKey(i, "answer") {
      EarlierKeysDiffer(v, i, "answer", k);
    }
    GetFindsFirst(e, QuestionKey(i, "answer"), 2 + img + 2 * i + 1);
  }

  /** No key at or past the number of questions is present. */
  lemma NoQuestionPastTheLast(v: FormValues, i: nat, f: string)
    requires i >= |QuestionsOrEmpty(v)|
    ensures Get(SubmittedEntries(v), QuestionKey(i, f)).None?
  {
    var e := SubmittedEntries(v);
    var img := if v.image.FileValue? then 1 else 0;
    SubmittedLayout(v);
    forall k | 0 <= k < |e| ensures e[k].key != QuestionKey(i, f) {
      if k >= 2 + img {
        QuestionEntryKeys(v, k);
        var n := (k - 2 - img) / 2;
        if e[k].key == QuestionKey(i, f) {
          QuestionKeyInjective(n, i, if (k - 2 - img) % 2 == 0 then "question" else "answer", f);
        }
      } else {
        QuestionKeyIsNotFixed(i, f);
      }
    }
  }
}
