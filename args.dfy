/** The argument helpers of the command line: a `--flag value` pair taken
    out of the argument text, a subcommand split from its arguments, and the
    check every new project, namespace or chat name goes through. */
module Args {
  import opened Wrappers
  import opened Text

  /** `list.index(x)`: the position of the first `x`. */
  function PositionOf(xs: seq<string>, x: string): (i: nat)
    requires x in xs
    ensures i < |xs| && xs[i] == x && x !in xs[..i]
  {
    if xs[0] == x then 0
    else
      var i := 1 + PositionOf(xs[1..], x);
      assert xs[..i] == [xs[0]] + xs[1..][..i - 1];
      i
  }

  /** The first `x` after a run without one sits right after the run. */
  lemma {:induction false} PositionAfter(pre: seq<string>, x: string, post: seq<string>)
    requires x !in pre
    ensures PositionOf(pre + [x] + post, x) == |pre|
  {
    if pre != [] {
      assert (pre + [x] + post)[1..] == pre[1..] + [x] + post;
      PositionAfter(pre[1..], x, post);
    }
  }

  /** What `parse_flag` returns: the flag's value when the flag is there,
      and the argument text that is left. */
  datatype FlagParse = FlagParse(value: Option<string>, rest: string)

  /** `parse_flag`: no flag leaves the text as it is; a flag with nothing
      after it has the empty value and also leaves the text as it is;
      otherwise the word after the first occurrence of the flag is its
      value and the other words are joined back with single spaces. */
  function ParseFlag(args: string, flag: string): (r: FlagParse)
    ensures r.value.Some? <==> flag in Split(args)
    ensures r.value.None? ==> r.rest == args
    ensures r.value.Some? && r.value.value != "" ==> r.value.value in Split(args)
  {
    if args == [] then FlagParse(None, args)
    else
      var parts := Split(args);
      if flag !in parts then FlagParse(None, args)
      else
        var i := PositionOf(parts, flag);
        if i + 1 < |parts| then FlagParse(Some(parts[i + 1]), Join(" ", parts[..i] + parts[i + 2..]))
        else FlagParse(Some(""), args)
  }

  /** Words separated by single spaces. */
  ghost predicate Words(ws: seq<string>) {
    forall w | w in ws :: w != [] && NoSpace(w)
  }

  lemma JoinNonEmpty(ws: seq<string>)
    requires Words(ws) && ws != []
    ensures Join(" ", ws) != []
  {
    assert ws[0] in ws;
  }

  /** A flag followed by a value is taken out: the value comes back and the
      words around the pair are joined as they were. */
  lemma ParseFlagOf(pre: seq<string>, flag: string, v: string, post: seq<string>)
    requires Words(pre + [flag, v] + post) && flag !in pre
    ensures ParseFlag(Join(" ", pre + [flag, v] + post), flag) == FlagParse(Some(v), Join(" ", pre + post))
  {
    var ws := pre + [flag, v] + post;
    JoinNonEmpty(ws);
    SplitJoin(ws);
    FlagLayout(pre, flag, v, post);
    PositionAfter(pre, flag, [v] + post);
  }

  /** Where the flag and its value sit among the words. */
  lemma FlagLayout(pre: seq<string>, flag: string, v: string, post: seq<string>)
    ensures var ws := pre + [flag, v] + post;
            && ws == pre + [flag] + ([v] + post)
            && |pre| + 1 < |ws| && ws[|pre|] == flag && ws[|pre| + 1] == v
            && ws[..|pre|] + ws[|pre| + 2..] == pre + post
  {
    var ws := pre + [flag, v] + post;
    assert ws[..|pre|] == pre;
    assert ws[|pre| + 2..] == post;
  }

  /** A flag that ends the text has the empty value and the text is kept. */
  lemma ParseFlagLast(pre: seq<string>, flag: string)
    requires Words(pre + [flag]) && flag !in pre
    ensures ParseFlag(Join(" ", pre + [flag]), flag) == FlagParse(Some(""), Join(" ", pre + [flag]))
  {
    var ws := pre + [flag];
    JoinNonEmpty(ws);
    SplitJoin(ws);
    assert ws == pre + [flag] + [];
    PositionAfter(pre, flag, []);
  }

  /** Without the flag the text comes back untouched. */
  lemma ParseFlagAbsent(ws: seq<string>, flag: string)
    requires Words(ws) && flag !in ws
    ensures ParseFlag(Join(" ", ws), flag) == FlagParse(None, Join(" ", ws))
  {
    if ws != [] {
      SplitJoin(ws);
    }
  }

  /** What `parse_subcommand` returns. */
  datatype Subcommand = NoInput | Subcommand(name: string, args: string)

  /** `parse_subcommand`: nothing for empty text; otherwise the first word
      and the rest after the whitespace that follows it, or "" when there is
      no rest. Text made only of whitespace makes the source index an empty
      list, which is the error here. */
  function ParseSubcommand(s: string): (r: Result<Subcommand, string>)
    ensures r == Ok(NoInput) <==> s == []
    ensures r.Err? <==> s != [] && AllSpace(s)
    ensures r.Ok? && r.value.Subcommand? ==> r.value.name != [] && NoSpace(r.value.name)
    ensures r.Ok? && r.value.Subcommand? && r.value.args != [] ==> !IsSpace(r.value.args[0])
  {
    if s == [] then Ok(NoInput)
    else
      var parts := SplitOnce(s);
      if parts == [] then Err("IndexError")
      else Ok(Subcommand(parts[0], if |parts| > 1 then parts[1] else ""))
  }

  /** A single word is a subcommand with no arguments. */
  lemma ParseSubcommandWord(w: string)
    requires w != [] && NoSpace(w)
    ensures ParseSubcommand(w) == Ok(Subcommand(w, ""))
  {
    TokenLengthWord(w, []);
    assert w + [] == w;
    assert LeadingSpaces(w) == 0;
  }

  /** A word, a space and text that starts with a visible character split
      back into the word and that text, whatever spaces the text holds. */
  lemma ParseSubcommandOf(w: string, rest: string)
    requires w != [] && NoSpace(w)
    requires rest != [] && !IsSpace(rest[0])
    ensures ParseSubcommand(w + (" " + rest)) == Ok(Subcommand(w, rest))
  {
    SplitOnceOf(w, rest);
  }

  /** What `validate_name` returns. */
  datatype NameCheck = Accepted | Rejected(message: string)

  /** `validate_name`: empty or blank names, names over 100 characters and
      names with whitespace at either end are refused, in that order, with
      the entity's capitalised kind at the head of the message. */
  function ValidateName(name: string, entity: string): (r: NameCheck)
    ensures r.Accepted? <==> name != [] && |name| <= 100 && !IsSpace(name[0]) && !IsSpace(name[|name| - 1])
    ensures AllSpace(name) ==> r == Rejected(Capitalize(entity) + " name cannot be empty")
    ensures !AllSpace(name) && |name| > 100 ==> r == Rejected(Capitalize(entity) + " name too long (max 100 characters)")
  {
    StripAllSpace(name);
    StripIdentity(name);
    if name == [] || Strip(name) == [] then Rejected(Capitalize(entity) + " name cannot be empty")
    else if |name| > 100 then Rejected(Capitalize(entity) + " name too long (max 100 characters)")
    else if Strip(name) != name then Rejected(Capitalize(entity) + " name cannot start or end with whitespace")
    else Accepted
  }
}
