/**
 * The two submission forms: which fields a post or a comment submission may
 * set, and when a submission is rejected.
 */
module Forms {
  import opened Models

  /**
   * What a client sends for a post. The form reads only `text`, `group` and
   * `image`; `author` and `pubDate` stand for any such values the client adds,
   * which the form does not look at.
   */
  datatype PostData = PostData(
    text: Option<string>,
    group: Option<nat>,
    image: Option<ImageToken>,
    author: Option<UserName>,
    pubDate: Option<nat>)

  /** What a client sends for a comment: only its text is read. */
  datatype CommentData = CommentData(text: Option<string>)

  /**
   * A field-level error; `message` is the form's own message, None for the
   * framework's default one. NullCharacters is the framework's refusal of a
   * text that contains the NUL character.
   */
  datatype FieldError =
    | Required(field: string, message: Option<string>)
    | InvalidChoice(field: string)
    | NullCharacters(field: string)

  /**
   * The outcome of validating a form: nothing submitted (the form is unbound
   * and simply redisplayed), the errors in field order, or the cleaned fields.
   */
  datatype Validated<T> = Unbound | Rejected(errors: seq<FieldError>) | Accepted(value: T)

  /** The fields a valid post submission sets. */
  datatype PostFields = PostFields(text: string, group: Option<nat>, image: Option<ImageToken>)

  /**
   * What the view hands the post form (`request.POST or None` with
   * `files=request.FILES or None`): a request that carries no field and no
   * file binds nothing, exactly like a request without a body.
   */
  function BindPost(data: Option<PostData>): (r: Option<PostData>)
    ensures r.None? <==> data.None? || data.value == PostData(None, None, None, None, None)
    ensures r.Some? ==> r == data
  {
    if data == Some(PostData(None, None, None, None, None)) then None else data
  }

  /** What the view hands the comment form (`request.POST or None`). */
  function BindComment(data: Option<CommentData>): (r: Option<CommentData>)
    ensures r.None? <==> data.None? || data.value.text.None?
    ensures r.Some? ==> r == data
  {
    if data == Some(CommentData(None)) then None else data
  }

  /** The message the post form shows when the text is missing. */
  const TEXT_REQUIRED: string := "Заполните комментарий"

  /**
   * The whitespace a text field strips from both ends of its value: space,
   * tab, line feed, vertical tab, form feed, carriage return and the four
   * ASCII separators U+001C to U+001F.
   */
  predicate IsSpace(c: char)
  {
    c == ' ' || c == '\t' || c == '\n' || c == '\r' || c == '\U{000B}' || c == '\U{000C}' ||
    c == '\U{001C}' || c == '\U{001D}' || c == '\U{001E}' || c == '\U{001F}'
  }

  /** The character every text field refuses. */
  const NUL: char := '\U{0000}'

  predicate HasNul(s: string)
  {
    NUL in s
  }

  /** `s` without its leading whitespace. */
  function TrimLeft(s: string): (r: string)
    ensures |r| <= |s|
  {
    if s != [] && IsSpace(s[0]) then TrimLeft(s[1..]) else s
  }

  /** `s` without its trailing whitespace. */
  function TrimRight(s: string): (r: string)
    ensures |r| <= |s|
  {
    if s != [] && IsSpace(s[|s| - 1]) then TrimRight(s[..|s| - 1]) else s
  }

  /** TrimLeft drops exactly the leading whitespace: a blank prefix goes, the rest stays. */
  lemma {:induction false} TrimLeftSpec(s: string)
    ensures TrimLeft(s) == s[|s| - |TrimLeft(s)|..]
    ensures forall i :: 0 <= i < |s| - |TrimLeft(s)| ==> IsSpace(s[i])
    ensures TrimLeft(s) != [] ==> !IsSpace(TrimLeft(s)[0])
  {
    if s != [] && IsSpace(s[0]) {
      TrimLeftSpec(s[1..]);
      forall i | 1 <= i < |s| - |TrimLeft(s)| ensures IsSpace(s[i]) {
        assert s[i] == s[1..][i - 1];
      }
    }
  }

  /** TrimRight drops exactly the trailing whitespace: a blank suffix goes, the rest stays. */
  lemma {:induction false} TrimRightSpec(s: string)
    ensures TrimRight(s) == s[..|TrimRight(s)|]
    ensures forall i :: |TrimRight(s)| <= i < |s| ==> IsSpace(s[i])
    ensures TrimRight(s) != [] ==> !IsSpace(TrimRight(s)[|TrimRight(s)| - 1])
  {
    if s != [] && IsSpace(s[|s| - 1]) {
      TrimRightSpec(s[..|s| - 1]);
      forall i | |TrimRight(s)| <= i < |s| - 1 ensures IsSpace(s[i]) {
        assert s[i] == s[..|s| - 1][i];
      }
    }
  }

  /** What a text field keeps of its value: the text between its leading and trailing whitespace. */
  function Strip(s: string): (r: string)
    ensures |r| <= |s|
  {
    TrimRight(TrimLeft(s))
  }

  /**
   * Strip removes whitespace only, and all of it at both ends: the result is
   * the piece of `s` between a blank prefix and a blank suffix, it neither
   * starts nor ends with whitespace, and it is empty exactly when `s` is blank.
   */
  lemma StripSpec(s: string)
    ensures var r := Strip(s); var lo := |s| - |TrimLeft(s)|;
      && lo + |r| <= |s| && r == s[lo..lo + |r|]
      && (forall i :: 0 <= i < lo ==> IsSpace(s[i]))
      && (forall i :: lo + |r| <= i < |s| ==> IsSpace(s[i]))
      && (r != [] ==> !IsSpace(r[0]) && !IsSpace(r[|r| - 1]))
    ensures Strip(s) == [] <==> forall i :: 0 <= i < |s| ==> IsSpace(s[i])
  {
    TrimLeftSpec(s);
    TrimRightSpec(TrimLeft(s));
    StripSlice(s);
    StripTail(s);
    StripEnds(s);
    StripBlank(s);
  }

  lemma StripSlice(s: string)
    ensures var lo := |s| - |TrimLeft(s)|; lo + |Strip(s)| <= |s| && Strip(s) == s[lo..lo + |Strip(s)|]
  {
    var t := TrimLeft(s);
    var r := TrimRight(t);
    var lo := |s| - |t|;
    TrimLeftSpec(s);
    TrimRightSpec(t);
    forall j | 0 <= j < |r| ensures r[j] == s[lo + j] {
      assert r[j] == t[j] && t[j] == s[lo + j];
    }
    assert r == s[lo..lo + |r|];
  }

  lemma StripTail(s: string)
    ensures var lo := |s| - |TrimLeft(s)|; forall i :: lo + |Strip(s)| <= i < |s| ==> IsSpace(s[i])
  {
    var t := TrimLeft(s);
    var lo := |s| - |t|;
    TrimLeftSpec(s);
    TrimRightSpec(t);
    forall i | lo + |Strip(s)| <= i < |s| ensures IsSpace(s[i]) {
      assert s[i] == t[i - lo];
    }
  }

  lemma StripEnds(s: string)
    ensures Strip(s) != [] ==> !IsSpace(Strip(s)[0]) && !IsSpace(Strip(s)[|Strip(s)| - 1])
  {
    var t := TrimLeft(s);
    var r := TrimRight(t);
    TrimLeftSpec(s);
    TrimRightSpec(t);
    if r != [] {
      assert r[0] == t[0];
    }
  }

  lemma StripBlank(s: string)
    ensures Strip(s) == [] <==> forall i :: 0 <= i < |s| ==> IsSpace(s[i])
  {
    var t := TrimLeft(s);
    var r := TrimRight(t);
    var lo := |s| - |t|;
    TrimLeftSpec(s);
    TrimRightSpec(t);
    if r != [] {
      assert s[lo] == t[0] == r[0];
    }
  }

  /** Stripping twice keeps what stripping once kept. */
  lemma StripIdempotent(s: string)
    ensures Strip(Strip(s)) == Strip(s)
  {
    var r := Strip(s);
    StripEnds(s);
    if r != [] {
      assert TrimLeft(r) == r;
      assert TrimRight(r) == r;
    }
  }

  /** Text after a non-blank prefix survives left trimming untouched. */
  lemma {:induction false} TrimLeftAppend(t: string, u: string)
    requires exists i :: 0 <= i < |t| && !IsSpace(t[i])
    ensures TrimLeft(t + u) == TrimLeft(t) + u
  {
    if IsSpace(t[0]) {
      assert (t + u)[1..] == t[1..] + u;
      var i :| 0 <= i < |t| && !IsSpace(t[i]);
      assert !IsSpace(t[1..][i - 1]);
      TrimLeftAppend(t[1..], u);
    }
  }

  lemma TrimRightNewline(l: string)
    ensures TrimRight(l + "\n") == TrimRight(l)
  {
    assert (l + "\n")[..|l|] == l;
  }

  /** One space before and a newline after a non-blank text are stripped away again. */
  lemma StripPadded(t: string)
    requires Strip(t) != ""
    ensures Strip(" " + t + "\n") == Strip(t)
  {
    var padded := " " + t + "\n";
    assert padded[1..] == t + "\n";
    assert TrimLeft(padded) == TrimLeft(t + "\n");
    StripBlank(t);
    var i :| 0 <= i < |t| && !IsSpace(t[i]);
    TrimLeftAppend(t, "\n");
    TrimRightNewline(TrimLeft(t));
  }

  /** A required text field is satisfied by a present value that is not all whitespace. */
  predicate Supplied(text: Option<string>)
  {
    text.Some? && Strip(text.value) != ""
  }

  /**
   * The errors of a required text field: missing or blank text is reported by
   * the required check alone; only a supplied text goes on to the NUL check.
   */
  function TextErrors(text: Option<string>, message: Option<string>): seq<FieldError>
  {
    if !Supplied(text) then [Required("text", message)]
    else if HasNul(Strip(text.value)) then [NullCharacters("text")]
    else []
  }

  /** Stripping removes whitespace only, so it neither adds nor removes a NUL character. */
  lemma StripKeepsNul(s: string)
    ensures HasNul(Strip(s)) <==> HasNul(s)
  {
    var r := Strip(s);
    var lo := |s| - |TrimLeft(s)|;
    StripSlice(s);
    StripTail(s);
    TrimLeftSpec(s);
    if HasNul(s) {
      var i :| 0 <= i < |s| && s[i] == NUL;
      assert lo <= i < lo + |r|;
      assert r[i - lo] == s[i];
    }
    if HasNul(r) {
      var j :| 0 <= j < |r| && r[j] == NUL;
      assert s[lo + j] == r[j];
    }
  }

  function GroupErrors(group: Option<nat>, groups: seq<Group>): seq<FieldError>
  {
    if group.Some? && !GroupExists(groups, group.value) then [InvalidChoice("group")] else []
  }

  /**
   * PostForm: text is required (with its own message), a group must name an
   * existing group when given, the image is optional; nothing else is read.
   */
  function CleanPost(data: Option<PostData>, groups: seq<Group>): (r: Validated<PostFields>)
    ensures data.None? <==> r.Unbound?
    ensures r.Accepted? <==>
      data.Some? && Supplied(data.value.text) && !HasNul(data.value.text.value) &&
      (data.value.group.Some? ==> GroupExists(groups, data.value.group.value))
    ensures r.Accepted? ==>
      r.value.text == Strip(data.value.text.value) && r.value.text != "" &&
      r.value.group == data.value.group && r.value.image == data.value.image
    ensures r.Rejected? ==>
      r.errors != [] &&
      (Required("text", Some(TEXT_REQUIRED)) in r.errors <==> !Supplied(data.value.text)) &&
      (NullCharacters("text") in r.errors <==> Supplied(data.value.text) && HasNul(data.value.text.value)) &&
      (InvalidChoice("group") in r.errors <==>
        data.value.group.Some? && !GroupExists(groups, data.value.group.value))
    ensures r.Rejected? ==>
      && |r.errors| <= 2
      && (forall i :: 0 <= i < |r.errors| ==>
            r.errors[i] in [Required("text", Some(TEXT_REQUIRED)), NullCharacters("text"), InvalidChoice("group")])
      && (|r.errors| == 2 ==> r.errors[0].field == "text" && r.errors[1] == InvalidChoice("group"))
  {
    match data
    case None => Unbound
    case Some(d) =>
      assert d.text.Some? ==> (HasNul(Strip(d.text.value)) <==> HasNul(d.text.value)) by {
        if d.text.Some? { StripKeepsNul(d.text.value); }
      }
      var errors := TextErrors(d.text, Some(TEXT_REQUIRED)) + GroupErrors(d.group, groups);
      if errors == [] then Accepted(PostFields(Strip(d.text.value), d.group, d.image))
      else Rejected(errors)
  }

  /** The author and date a client sends make no difference to the outcome. */
  lemma PostFormIgnoresExtraFields(d: PostData, groups: seq<Group>, author: Option<UserName>, pubDate: Option<nat>)
    ensures CleanPost(Some(d.(author := author, pubDate := pubDate)), groups) == CleanPost(Some(d), groups)
  {
  }

  /**
   * An empty POST leaves either form unbound, so it is redisplayed without
   * any error; a field sent empty still binds the form and is rejected.
   */
  lemma EmptySubmissionUnbound(groups: seq<Group>)
    ensures CleanPost(BindPost(Some(PostData(None, None, None, None, None))), groups) == Unbound
    ensures CleanComment(BindComment(Some(CommentData(None)))) == Unbound
    ensures CleanPost(BindPost(Some(PostData(Some(""), None, None, None, None))), groups)
      == Rejected([Required("text", Some(TEXT_REQUIRED))])
    ensures CleanComment(BindComment(Some(CommentData(Some(""))))) == Rejected([Required("text", None)])
  {
  }

  /** Group and image may both be left out of a post submission. */
  lemma GroupAndImageOptional(text: string, groups: seq<Group>)
    requires Strip(text) != "" && !HasNul(text)
    ensures CleanPost(Some(PostData(Some(text), None, None, None, None)), groups)
      == Accepted(PostFields(Strip(text), None, None))
  {
  }

  /** A text made only of whitespace counts as missing in either form, so it is rejected as required. */
  lemma BlankTextRejected(text: string, groups: seq<Group>)
    requires forall i :: 0 <= i < |text| ==> IsSpace(text[i])
    ensures CleanPost(Some(PostData(Some(text), None, None, None, None)), groups)
      == Rejected([Required("text", Some(TEXT_REQUIRED))])
    ensures CleanComment(Some(CommentData(Some(text)))) == Rejected([Required("text", None)])
  {
    StripBlank(text);
  }

  /** A leading space and a trailing newline around a text change nothing that either form keeps of it. */
  lemma PaddingIsStripped(text: string, groups: seq<Group>)
    requires Strip(text) != "" && !HasNul(text)
    ensures CleanComment(Some(CommentData(Some(" " + text + "\n")))) == Accepted(Strip(text))
    ensures CleanPost(Some(PostData(Some(" " + text + "\n"), None, None, None, None)), groups)
      == Accepted(PostFields(Strip(text), None, None))
  {
    StripPadded(text);
    StripKeepsNul(text);
    StripKeepsNul(" " + text + "\n");
  }

  /**
   * A supplied text holding a NUL character is refused by either form with the
   * framework's null-character error, and never with the required error.
   */
  lemma NulTextRejected(text: string, groups: seq<Group>)
    requires Strip(text) != "" && HasNul(text)
    ensures CleanPost(Some(PostData(Some(text), None, None, None, None)), groups)
      == Rejected([NullCharacters("text")])
    ensures CleanComment(Some(CommentData(Some(text)))) == Rejected([NullCharacters("text")])
  {
    StripKeepsNul(text);
  }

  /** CommentForm: only the text is read, and it is required (with the framework's default message). */
  function CleanComment(data: Option<CommentData>): (r: Validated<string>)
    ensures data.None? <==> r.Unbound?
    ensures r.Accepted? <==> data.Some? && Supplied(data.value.text) && !HasNul(data.value.text.value)
    ensures r.Accepted? ==> r.value == Strip(data.value.text.value) && r.value != "" && !HasNul(r.value)
    ensures r.Rejected? && !Supplied(data.value.text) ==> r.errors == [Required("text", None)]
    ensures r.Rejected? && Supplied(data.value.text) ==> r.errors == [NullCharacters("text")]
  {
    match data
    case None => Unbound
    case Some(d) =>
      assert d.text.Some? ==> (HasNul(Strip(d.text.value)) <==> HasNul(d.text.value)) by {
        if d.text.Some? { StripKeepsNul(d.text.value); }
      }
      var errors := TextErrors(d.text, None);
      if errors == [] then Accepted(Strip(d.text.value)) else Rejected(errors)
  }
}
