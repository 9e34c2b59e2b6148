/** Validation of the `hintText` field of an inbound `hint` message: it must be
    a string, and not empty once `trim()` has removed the JavaScript white space
    and line terminators at both ends. */
module HintText {

  /** A field of a parsed JSON message: a string, or any other value (number,
      boolean, null, object, array, or absent) given by the text a template
      literal would render it as. */
  datatype JsonValue = JString(s: string) | JOther(rendered: string)

  /** How `${v}` renders a field in a message text: a string as itself. */
  function Render(v: JsonValue): (r: string)
    ensures v.JString? ==> r == v.s
  {
    match v
    case JString(s) => s
    case JOther(r) => r
  }

  /** The characters `String.prototype.trim` removes: the WhiteSpace code points
      (tab, vertical tab, form feed, space, no-break space, the byte order mark and
      the other space separators) and the LineTerminator code points. */
  predicate IsJsSpace(c: char) {
    || c == '\t' || c == '\n' || c == '\U{B}' || c == '\U{C}' || c == '\r' || c == ' '
    || c == '\U{A0}' || c == '\U{1680}' || ('\U{2000}' <= c <= '\U{200A}')
    || c == '\U{2028}' || c == '\U{2029}' || c == '\U{202F}' || c == '\U{205F}'
    || c == '\U{3000}' || c == '\U{FEFF}'
  }

  predicate AllSpace(s: string) {
    forall i :: 0 <= i < |s| ==> IsJsSpace(s[i])
  }

  /** Drops the leading white space: what is dropped is all white space and
      what is kept does not start with white space. */
  function TrimStart(s: string): (r: string)
    ensures |r| <= |s| && r == s[|s| - |r|..]
    ensures AllSpace(s[..|s| - |r|])
    ensures r != [] ==> !IsJsSpace(r[0])
  {
    if s != [] && IsJsSpace(s[0]) then TrimStart(s[1..]) else s
  }

  /** Drops the trailing white space: what is dropped is all white space and
      what is kept does not end with white space. */
  function TrimEnd(s: string): (r: string)
    ensures |r| <= |s| && r == s[..|r|]
    ensures AllSpace(s[|r|..])
    ensures r != [] ==> !IsJsSpace(r[|r| - 1])
  {
    if s != [] && IsJsSpace(s[|s| - 1]) then TrimEnd(s[..|s| - 1]) else s
  }

  /** Cutting white space off the start of `s`, leaving `t`, then off the end
      of `t`, leaving `r`, leaves a slice of `s` with white space on both sides. */
  lemma TrimCutsEnds(s: string, t: string, r: string)
    requires |t| <= |s| && t == s[|s| - |t|..] && AllSpace(s[..|s| - |t|])
    requires |r| <= |t| && r == t[..|r|] && AllSpace(t[|r|..])
    ensures exists k :: 0 <= k <= |s| - |r| && r == s[k..k + |r|] && AllSpace(s[..k]) && AllSpace(s[k + |r|..])
  {
    var k := |s| - |t|;
    assert t[|r|..] == s[k + |r|..];
    assert r == s[k..k + |r|] && AllSpace(s[..k]) && AllSpace(s[k + |r|..]);
  }

  /** `s.trim()`: the text with white space cut off both ends. It is empty
      exactly when the text is all white space. */
  function Trim(s: string): (r: string)
    ensures |r| <= |s|
    ensures r != [] ==> !IsJsSpace(r[0]) && !IsJsSpace(r[|r| - 1])
    ensures r == [] <==> AllSpace(s)
  {
    var t := TrimStart(s);
    var r := TrimEnd(t);
    var k := |s| - |t|;
    assert r != [] ==> r[0] == t[0];
    assert t != [] ==> t[0] == s[|s| - |t|];
    assert t == [] ==> s == s[..|s| - |t|];
    r
  }

  /** `trim()` removes white space at the two ends and nothing else: the
      result is a slice of the text with only white space on either side. */
  lemma TrimIsSlice(s: string)
    ensures var r := Trim(s);
            exists k :: 0 <= k <= |s| - |r| && r == s[k..k + |r|] && AllSpace(s[..k]) && AllSpace(s[k + |r|..])
  {
    var t := TrimStart(s);
    var r := TrimEnd(t);
    assert Trim(s) == r;
    TrimCutsEnds(s, t, r);
  }

  /** The guard `typeof hintText !== 'string' || hintText.trim() === ''`, negated. */
  predicate ValidHintText(v: JsonValue) {
    v.JString? && Trim(v.s) != []
  }

  /** A hint is accepted exactly when it is a string holding at least one
      character that is not white space. */
  lemma ValidHintTextIff(v: JsonValue)
    ensures ValidHintText(v) <==> v.JString? && exists i :: 0 <= i < |v.s| && !IsJsSpace(v.s[i])
  {
    if v.JString? && !AllSpace(v.s) {
      var i :| 0 <= i < |v.s| && !IsJsSpace(v.s[i]);
    }
  }

  /** The guard's rejections and an acceptance, on concrete texts. */
  lemma HintTextExamples()
    ensures !ValidHintText(JString(""))
    ensures !ValidHintText(JString(" \t\n"))
    ensures !ValidHintText(JOther("42"))
    ensures ValidHintText(JString(" look "))
  {
    var blank, text := " \t\n", " look ";
    assert AllSpace(blank) by {
      assert blank[0] == ' ' && blank[1] == '\t' && blank[2] == '\n';
    }
    assert text[1] == 'l';
    assert !AllSpace(text);
  }
}
