/**
 * The submit handler of the provider form (frontend/webapp/src/components/providers/ProviderForm.tsx):
 * a required name and an optional e-mail address checked against `^[\w-.]+@([\w-]+\.)+[\w-]{2,4}$`.
 * The regular expression is stated as a grammar (`EmailPattern`) and checked by a scanner
 * (`RecogniseEmail`) proved to accept the same language.
 */
module ProviderForm {
  import opened Text

  /** The form's fields (every field of a provider except its id). */
  datatype ProviderFields = ProviderFields(
    name: string,
    contact: string,
    address: string,
    phone: string,
    email: string,
    notes: string)

  datatype ToastKind = Error | Success
  datatype Toast = Toast(kind: ToastKind, message: string)

  const NameRequired: string := "El nombre es obligatorio"
  const InvalidEmail: string := "Email no v\U{00E1}lido"
  const Saved: string := "Proveedor guardado correctamente"

  // ---- The regular expression, as a grammar ----

  /** `[\w-.]`: outside unicode mode the `-` after a class escape is a literal hyphen. */
  predicate LocalChar(c: char) { IsWordChar(c) || c == '-' || c == '.' }

  /** `[\w-]`. */
  predicate LabelChar(c: char) { IsWordChar(c) || c == '-' }

  /** `[\w-.]+`. */
  predicate LocalPart(s: string) { |s| > 0 && forall k :: 0 <= k < |s| ==> LocalChar(s[k]) }

  /** `[\w-]+`. */
  predicate Label(s: string) { |s| > 0 && forall k :: 0 <= k < |s| ==> LabelChar(s[k]) }

  /** `[\w-]{2,4}`. */
  predicate TopLabel(s: string) { 2 <= |s| <= 4 && forall k :: 0 <= k < |s| ==> LabelChar(s[k]) }

  /** `s` splits as a label, a dot at `i`, and the rest. */
  predicate LabelDotAt(s: string, i: int) {
    0 < i < |s| && s[i] == '.' && Label(s[..i])
  }

  /** `([\w-]+\.)+`: one or more labels, each followed by a dot. */
  ghost predicate DotLabels(s: string)
    decreases |s|
  {
    exists i :: LabelDotAt(s, i) && (i + 1 == |s| || DotLabels(s[i + 1..]))
  }

  /** The whole address splits at `@` position `i` and top-label start `j`. */
  ghost predicate SplitsAt(e: string, i: int, j: int) {
    && 0 <= i < j <= |e|
    && e[i] == '@'
    && LocalPart(e[..i])
    && DotLabels(e[i + 1..j])
    && TopLabel(e[j..])
  }

  /** The language of `^[\w-.]+@([\w-]+\.)+[\w-]{2,4}$`. */
  ghost predicate EmailPattern(e: string) {
    exists i, j :: SplitsAt(e, i, j)
  }

  // ---- The scanner ----

  /** A dot-terminated run of labels, checked character by character. */
  predicate ScanDotLabels(s: string) {
    && |s| >= 2
    && s[0] != '.'
    && s[|s| - 1] == '.'
    && (forall k :: 0 <= k < |s| ==> LabelChar(s[k]) || s[k] == '.')
    && (forall k :: 0 <= k < |s| - 1 ==> !(s[k] == '.' && s[k + 1] == '.'))
  }

  /** Split at the first `@` and at the last dot after it, then check each part. */
  predicate RecogniseEmail(e: string) {
    var i := FirstIndex(e, '@');
    i >= 0 &&
    var d := e[i + 1..];
    var j := LastIndex(d, '.');
    j >= 0 && LocalPart(e[..i]) && ScanDotLabels(d[..j + 1]) && TopLabel(d[j + 1..])
  }

  // ---- The scanner and the grammar agree ----

  lemma DotLabelsScan(s: string)
    ensures DotLabels(s) <==> ScanDotLabels(s)
  {
    if DotLabels(s) { DotLabelsScanned(s); }
    if ScanDotLabels(s) { ScannedDotLabels(s); }
  }

  lemma {:induction false} DotLabelsScanned(s: string)
    requires DotLabels(s)
    ensures ScanDotLabels(s)
    decreases |s|
  {
    var i :| LabelDotAt(s, i) && (i + 1 == |s| || DotLabels(s[i + 1..]));
    assert forall k :: 0 <= k < i ==> LabelChar(s[k]) && s[k] != '.' by {
      assert forall k :: 0 <= k < i ==> s[k] == s[..i][k];
    }
    if i + 1 < |s| {
      var t := s[i + 1..];
      DotLabelsScanned(t);
      assert forall k :: i + 1 <= k < |s| ==> s[k] == t[k - (i + 1)];
      assert forall k :: 0 <= k < |s| - 1 ==> !(s[k] == '.' && s[k + 1] == '.') by {
        forall k | 0 <= k < |s| - 1 ensures !(s[k] == '.' && s[k + 1] == '.') {
          if k > i {
            assert s[k] == t[k - (i + 1)] && s[k + 1] == t[k + 1 - (i + 1)];
          } else if k == i {
            assert s[k + 1] == t[0];
          }
        }
      }
    }
  }

  lemma {:induction false} ScannedDotLabels(s: string)
    requires ScanDotLabels(s)
    ensures DotLabels(s)
    decreases |s|
  {
    var i := FirstIndex(s, '.');
    assert s[|s| - 1] == '.';
    assert 0 < i;
    assert Label(s[..i]) by {
      assert forall k :: 0 <= k < i ==> s[..i][k] == s[k];
    }
    assert LabelDotAt(s, i);
    if i + 1 < |s| {
      var t := s[i + 1..];
      assert forall k :: 0 <= k < |t| ==> t[k] == s[k + i + 1];
      assert t[0] != '.';
      ScannedDotLabels(t);
    }
  }

  /** A run of dot-terminated labels holds only label characters and dots, and ends with a dot. */
  lemma DotLabelsShape(s: string)
    requires DotLabels(s)
    ensures |s| >= 2 && s[|s| - 1] == '.'
    ensures forall k :: 0 <= k < |s| ==> LabelChar(s[k]) || s[k] == '.'
  {
    DotLabelsScan(s);
  }

  /** Every split of a matching address pins `i` to the only `@` and `j` to just after the last dot. */
  lemma SplitIsForced(e: string, i: int, j: int)
    requires SplitsAt(e, i, j)
    ensures forall k :: 0 <= k < |e| && e[k] == '@' ==> k == i
    ensures e[j - 1] == '.' && forall k :: j <= k < |e| ==> e[k] != '.'
  {
    var d := e[i + 1..j];
    DotLabelsShape(d);
    assert forall k :: 0 <= k < i ==> e[k] == e[..i][k];
    assert forall k :: i + 1 <= k < j ==> e[k] == d[k - (i + 1)];
    assert forall k :: j <= k < |e| ==> e[k] == e[j..][k - j];
  }

  lemma RecogniserSound(e: string)
    requires RecogniseEmail(e)
    ensures EmailPattern(e)
  {
    var i := FirstIndex(e, '@');
    var d := e[i + 1..];
    var j := LastIndex(d, '.');
    DotLabelsScan(d[..j + 1]);
    assert e[i + 1..i + 1 + j + 1] == d[..j + 1];
    assert e[i + 1 + j + 1..] == d[j + 1..];
    assert SplitsAt(e, i, i + 1 + j + 1);
  }

  lemma RecogniserComplete(e: string, i: int, j: int)
    requires SplitsAt(e, i, j)
    ensures RecogniseEmail(e)
  {
    var d := e[i + 1..];
    var jd := j - 1 - (i + 1);
    assert FirstIndex(e, '@') == i by { AtIsFirst(e, i, j); }
    assert LastIndex(d, '.') == jd by { DotIsLast(e, i, j); }
    assert ScanDotLabels(d[..jd + 1]) by {
      assert d[..jd + 1] == e[i + 1..j];
      DotLabelsScan(e[i + 1..j]);
    }
    assert TopLabel(d[jd + 1..]) by {
      assert d[jd + 1..] == e[j..];
    }
  }

  lemma AtIsFirst(e: string, i: int, j: int)
    requires SplitsAt(e, i, j)
    ensures FirstIndex(e, '@') == i
  {
    SplitIsForced(e, i, j);
  }

  lemma DotIsLast(e: string, i: int, j: int)
    requires SplitsAt(e, i, j)
    ensures LastIndex(e[i + 1..], '.') == j - 1 - (i + 1)
  {
    SplitIsForced(e, i, j);
    var d := e[i + 1..];
    assert forall k :: 0 <= k < |d| ==> d[k] == e[k + i + 1];
  }

  /** The scanner accepts exactly the language of the regular expression. */
  lemma RecogniserIsPattern(e: string)
    ensures RecogniseEmail(e) <==> EmailPattern(e)
  {
    if RecogniseEmail(e) {
      RecogniserSound(e);
    }
    if EmailPattern(e) {
      var i, j :| SplitsAt(e, i, j);
      RecogniserComplete(e, i, j);
    }
  }

  /**
   * An accepted address has exactly one `@`; before it a non-empty run of `[A-Za-z0-9_.-]`;
   * after it one or more dot-terminated labels and a final label of 2 to 4 characters.
   */
  lemma AcceptedAddressShape(e: string)
    requires EmailPattern(e)
    ensures exists i :: 0 <= i < |e| && e[i] == '@' && LocalPart(e[..i])
    ensures forall k, l :: 0 <= k < |e| && 0 <= l < |e| && e[k] == '@' && e[l] == '@' ==> k == l
    ensures exists j :: 0 < j <= |e| && e[j - 1] == '.' && TopLabel(e[j..])
  {
    var i, j :| SplitsAt(e, i, j);
    SplitIsForced(e, i, j);
  }

  // ---- The handler ----

  /** `form.email && !regex.test(form.email)`. */
  ghost predicate EmailRejected(email: string) {
    email != "" && !EmailPattern(email)
  }

  /**
   * `handleSubmit`: `saved` lists the values passed to `onSave` and `toasts` the toasts shown.
   * The form is saved unchanged exactly when the name is not blank and the e-mail is empty or
   * matches the pattern.
   */
  method HandleSubmit(form: ProviderFields) returns (saved: seq<ProviderFields>, toasts: seq<Toast>)
    ensures IsBlank(form.name) ==> saved == [] && toasts == [Toast(Error, NameRequired)]
    ensures !IsBlank(form.name) && EmailRejected(form.email) ==> saved == [] && toasts == [Toast(Error, InvalidEmail)]
    ensures saved == [form] <==> !IsBlank(form.name) && !EmailRejected(form.email)
    ensures saved != [] ==> saved == [form] && toasts == [Toast(Success, Saved)]
  {
    if IsBlank(form.name) {
      return [], [Toast(Error, NameRequired)];
    }
    EmailCheck(form.email);
    if form.email != "" && !RecogniseEmail(form.email) {
      return [], [Toast(Error, InvalidEmail)];
    }
    return [form], [Toast(Success, Saved)];
  }

  /** The handler's test is the pattern's. */
  lemma EmailCheck(email: string)
    ensures EmailRejected(email) == (email != "" && !RecogniseEmail(email))
  {
    RecogniserIsPattern(email);
  }
}
