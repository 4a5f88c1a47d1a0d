/** The pure line pipeline of `log_function_definition`: the source text of a
    capability, as lines, loses its `def` line, its docstrings and its
    bookkeeping lines, the actual arguments are paired with the parameter
    names, and every `driver[_run_test_id]` becomes `driver`. Reading the
    source (`inspect`), the `param=param` substitution, `textwrap.dedent` and
    the file append are not part of this model. */
module ReplayLog {
  import opened Common
  import opened Strings
  import Dict

  const TRIPLE_QUOTE := "\"\"\""
  const DRIVER_ENTRY := "driver[_run_test_id]"
  const DRIVER := "driver"

  /** `line.strip().startswith("def ")`. */
  predicate IsDefLine(line: string) {
    StartsWith(Strip(line), "def ")
  }

  /** The step-3 loop for any test `isDef`: the first line passing it is
      dropped; `skip_first_def` then stays off. */
  function DropFirst(lines: seq<string>, isDef: string -> bool): (r: seq<string>)
    ensures |r| == |lines| || |r| == |lines| - 1
    decreases |lines|
  {
    if |lines| == 0 then []
    else if isDef(lines[0]) then lines[1..]
    else [lines[0]] + DropFirst(lines[1..], isDef)
  }

  /** Step 3 of `log_function_definition`. */
  function DropFirstDef(lines: seq<string>): seq<string> {
    DropFirst(lines, IsDefLine)
  }

  lemma {:induction false} DropFirstAt(lines: seq<string>, isDef: string -> bool, i: nat)
    requires i < |lines| && isDef(lines[i])
    requires forall j :: 0 <= j < i ==> !isDef(lines[j])
    ensures DropFirst(lines, isDef) == lines[..i] + lines[i + 1..]
    decreases i
  {
    if i > 0 {
      DropFirstAt(lines[1..], isDef, i - 1);
      assert lines[1..][..i - 1] == lines[1..i];
      assert lines[1..][i..] == lines[i + 1..];
      assert [lines[0]] + lines[1..i] == lines[..i];
    }
  }

  lemma {:induction false} DropFirstNone(lines: seq<string>, isDef: string -> bool)
    requires forall j :: 0 <= j < |lines| ==> !isDef(lines[j])
    ensures DropFirst(lines, isDef) == lines
    decreases |lines|
  {
    if |lines| > 0 {
      DropFirstNone(lines[1..], isDef);
      assert [lines[0]] + lines[1..] == lines;
    }
  }

  /** Exactly the first `def` line goes; a later `def` line (a nested function)
      stays. */
  lemma DropFirstDefAt(lines: seq<string>, i: nat)
    requires i < |lines| && IsDefLine(lines[i])
    requires forall j :: 0 <= j < i ==> !IsDefLine(lines[j])
    ensures DropFirstDef(lines) == lines[..i] + lines[i + 1..]
  {
    DropFirstAt(lines, IsDefLine, i);
  }

  /** Without a `def` line nothing is dropped. */
  lemma DropFirstDefNone(lines: seq<string>)
    requires forall j :: 0 <= j < |lines| ==> !IsDefLine(lines[j])
    ensures DropFirstDef(lines) == lines
  {
    DropFirstNone(lines, IsDefLine);
  }

  /** `'"""' in line.strip()`: the line toggles the docstring flag. */
  predicate IsQuoteLine(line: string) {
    Contains(Strip(line), TRIPLE_QUOTE)
  }

  /** The lines dropped wherever they appear outside a docstring: calls of the
      bookkeeping helpers (tested on the raw line) and `return`/`global`
      statements (tested on the stripped line). */
  predicate IsBookkeeping(line: string) {
    || Contains(line, "log_function_definition(")
    || Contains(line, "stop_all_drivers()")
    || Contains(line, "clean_html(")
    || StartsWith(Strip(line), "return")
    || StartsWith(Strip(line), "global")
  }

  /** The lines the step-4 loop keeps when it starts with `in_docstring == inDoc`,
      for any test `quote` of "toggles the docstring flag" and `drop` of "is
      dropped outside a docstring". */
  function KeptBy(lines: seq<string>, inDoc: bool, quote: string -> bool, drop: string -> bool): (r: seq<string>)
    ensures |r| <= |lines|
    ensures forall i :: 0 <= i < |r| ==> !quote(r[i]) && !drop(r[i])
    decreases |lines|
  {
    if |lines| == 0 then []
    else if quote(lines[0]) then KeptBy(lines[1..], !inDoc, quote, drop)
    else if inDoc || drop(lines[0]) then KeptBy(lines[1..], inDoc, quote, drop)
    else [lines[0]] + KeptBy(lines[1..], inDoc, quote, drop)
  }

  /** The value of `in_docstring` after scanning `lines` from `inDoc`. */
  function InDocAfterBy(lines: seq<string>, inDoc: bool, quote: string -> bool): bool
    decreases |lines|
  {
    if |lines| == 0 then inDoc
    else InDocAfterBy(lines[1..], if quote(lines[0]) then !inDoc else inDoc, quote)
  }

  /** The lines step 4 keeps from `lines`, starting outside a docstring. */
  function Kept(lines: seq<string>): seq<string> {
    KeptBy(lines, false, IsQuoteLine, IsBookkeeping)
  }

  /** Whether a docstring is open after `lines`. */
  predicate InDocAfter(lines: seq<string>) {
    InDocAfterBy(lines, false, IsQuoteLine)
  }

  /** Step 4, the loop as written. */
  method FilterLines(lines: seq<string>) returns (filtered: seq<string>)
    ensures filtered == Kept(lines)
    ensures IsSubseq(filtered, lines)
    ensures forall i :: 0 <= i < |filtered| ==> !IsQuoteLine(filtered[i]) && !IsBookkeeping(filtered[i])
  {
    filtered := [];
    var inDocstring := false;
    for i := 0 to |lines|
      invariant filtered + KeptBy(lines[i..], inDocstring, IsQuoteLine, IsBookkeeping) == Kept(lines)
    {
      var line := lines[i];
      var strippedLine := Strip(line);
      KeptStep(lines[i..], inDocstring, IsQuoteLine, IsBookkeeping);
      assert lines[i..][1..] == lines[i + 1..];
      if Contains(strippedLine, TRIPLE_QUOTE) {
        inDocstring := !inDocstring;
        continue;
      }
      if inDocstring {
        continue;
      }
      if Contains(line, "log_function_definition(") {
        assert IsBookkeeping(line);
        continue;
      }
      if Contains(line, "stop_all_drivers()") {
        assert IsBookkeeping(line);
        continue;
      }
      if Contains(line, "clean_html(") {
        assert IsBookkeeping(line);
        continue;
      }
      if StartsWith(strippedLine, "return") {
        assert IsBookkeeping(line);
        continue;
      }
      if StartsWith(strippedLine, "global") {
        assert IsBookkeeping(line);
        continue;
      }
      assert !IsBookkeeping(line);
      filtered := filtered + [line];
    }
    assert lines[|lines|..] == [];
    KeptSubseq(lines, false, IsQuoteLine, IsBookkeeping);
  }

  /** One step of the scan, by the first line's kind. */
  lemma KeptStep(lines: seq<string>, inDoc: bool, quote: string -> bool, drop: string -> bool)
    requires |lines| > 0
    ensures quote(lines[0]) ==> KeptBy(lines, inDoc, quote, drop) == KeptBy(lines[1..], !inDoc, quote, drop)
    ensures !quote(lines[0]) && (inDoc || drop(lines[0])) ==>
              KeptBy(lines, inDoc, quote, drop) == KeptBy(lines[1..], inDoc, quote, drop)
    ensures !quote(lines[0]) && !inDoc && !drop(lines[0]) ==>
              KeptBy(lines, inDoc, quote, drop) == [lines[0]] + KeptBy(lines[1..], inDoc, quote, drop)
  {
  }

  /** The kept lines are an order-preserving selection of the input lines,
      each one unchanged. */
  lemma {:induction false} KeptSubseq(lines: seq<string>, inDoc: bool, quote: string -> bool, drop: string -> bool)
    ensures IsSubseq(KeptBy(lines, inDoc, quote, drop), lines)
    decreases |lines|
  {
    if |lines| == 0 {
    } else {
      var rest := lines[1..];
      KeptSubseq(rest, !inDoc, quote, drop);
      KeptSubseq(rest, inDoc, quote, drop);
      if quote(lines[0]) || inDoc || drop(lines[0]) {
        SubseqDropPrefix(KeptBy(lines, inDoc, quote, drop), lines, 1);
      } else {
        SubseqCons(lines[0], KeptBy(rest, inDoc, quote, drop), rest);
        assert [lines[0]] + rest == lines;
      }
    }
  }

  /** Scanning a concatenation is scanning each part, the second from the flag
      the first leaves behind. */
  lemma {:induction false} KeptAppend(a: seq<string>, b: seq<string>, inDoc: bool,
                                      quote: string -> bool, drop: string -> bool)
    ensures KeptBy(a + b, inDoc, quote, drop) ==
              KeptBy(a, inDoc, quote, drop) + KeptBy(b, InDocAfterBy(a, inDoc, quote), quote, drop)
    decreases |a|
  {
    if |a| == 0 {
      assert a + b == b;
    } else {
      assert (a + b)[0] == a[0];
      assert (a + b)[1..] == a[1..] + b;
      KeptAppend(a[1..], b, !inDoc, quote, drop);
      KeptAppend(a[1..], b, inDoc, quote, drop);
    }
  }

  /** The lines kept when no docstring is involved: every line `drop` does not
      reject, in order. */
  function NotDropped(lines: seq<string>, drop: string -> bool): (r: seq<string>)
    decreases |lines|
  {
    if |lines| == 0 then []
    else (if drop(lines[0]) then [] else [lines[0]]) + NotDropped(lines[1..], drop)
  }

  /** Without triple quotes the filter keeps exactly the lines that are not
      dropped, and inside a docstring it keeps nothing and never leaves it. */
  lemma {:induction false} KeptWithoutQuotes(lines: seq<string>, quote: string -> bool, drop: string -> bool)
    requires forall i :: 0 <= i < |lines| ==> !quote(lines[i])
    ensures KeptBy(lines, false, quote, drop) == NotDropped(lines, drop)
    ensures KeptBy(lines, true, quote, drop) == []
    ensures InDocAfterBy(lines, true, quote)
    decreases |lines|
  {
    if |lines| > 0 {
      KeptWithoutQuotes(lines[1..], quote, drop);
    }
  }

  /** Without docstrings the filter keeps exactly the lines that are not
      bookkeeping. */
  lemma KeptNoDocstring(lines: seq<string>)
    requires forall i :: 0 <= i < |lines| ==> !IsQuoteLine(lines[i])
    ensures Kept(lines) == NotDropped(lines, IsBookkeeping)
    ensures !InDocAfter(lines)
  {
    KeptWithoutQuotes(lines, IsQuoteLine, IsBookkeeping);
    InDocAfterNoQuotes(lines, false, IsQuoteLine);
  }

  lemma {:induction false} InDocAfterNoQuotes(lines: seq<string>, inDoc: bool, quote: string -> bool)
    requires forall i :: 0 <= i < |lines| ==> !quote(lines[i])
    ensures InDocAfterBy(lines, inDoc, quote) == inDoc
    decreases |lines|
  {
    if |lines| > 0 {
      InDocAfterNoQuotes(lines[1..], inDoc, quote);
    }
  }

  /** A docstring block (an opening line with `"""`, lines without, a closing
      line with `"""`) is dropped whole, and the lines around it are filtered
      as if it were not there. */
  lemma DocstringDropped(before: seq<string>, open: string, body: seq<string>, close: string,
                         after: seq<string>)
    requires !InDocAfter(before)
    requires IsQuoteLine(open) && IsQuoteLine(close)
    requires forall i :: 0 <= i < |body| ==> !IsQuoteLine(body[i])
    ensures Kept(before + [open] + body + [close] + after) == Kept(before) + Kept(after)
  {
    DocstringBlock(before, open, body, close, after, IsQuoteLine, IsBookkeeping);
  }

  lemma DocstringBlock(before: seq<string>, open: string, body: seq<string>, close: string,
                       after: seq<string>, quote: string -> bool, drop: string -> bool)
    requires !InDocAfterBy(before, false, quote)
    requires quote(open) && quote(close)
    requires forall i :: 0 <= i < |body| ==> !quote(body[i])
    ensures KeptBy(before + [open] + body + [close] + after, false, quote, drop) ==
              KeptBy(before, false, quote, drop) + KeptBy(after, false, quote, drop)
  {
    var block := [open] + (body + ([close] + after));
    assert before + [open] + body + [close] + after == before + block;
    KeptAppend(before, block, false, quote, drop);
    QuoteHead(open, body + ([close] + after), false, quote, drop);
    InsideDocstring(body, close, after, quote, drop);
  }

  /** Inside a docstring, quote-free lines and then the closing line are
      dropped, and scanning resumes outside. */
  lemma InsideDocstring(body: seq<string>, close: string, after: seq<string>,
                        quote: string -> bool, drop: string -> bool)
    requires quote(close)
    requires forall i :: 0 <= i < |body| ==> !quote(body[i])
    ensures KeptBy(body + ([close] + after), true, quote, drop) == KeptBy(after, false, quote, drop)
  {
    KeptAppend(body, [close] + after, true, quote, drop);
    KeptWithoutQuotes(body, quote, drop);
    QuoteHead(close, after, true, quote, drop);
  }

  /** A line that toggles the flag is dropped and flips the state for the rest. */
  lemma QuoteHead(x: string, rest: seq<string>, inDoc: bool, quote: string -> bool, drop: string -> bool)
    requires quote(x)
    ensures KeptBy([x] + rest, inDoc, quote, drop) == KeptBy(rest, !inDoc, quote, drop)
  {
    assert ([x] + rest)[0] == x && ([x] + rest)[1..] == rest;
  }

  /** `zip(names, args)`: pairs up to the shorter of the two. */
  function Zip<A, B>(a: seq<A>, b: seq<B>): (z: seq<(A, B)>)
    ensures |z| == if |a| <= |b| then |a| else |b|
    ensures forall i :: 0 <= i < |z| ==> z[i] == (a[i], b[i])
    decreases |a|
  {
    if |a| == 0 || |b| == 0 then [] else [(a[0], b[0])] + Zip(a[1..], b[1..])
  }

  /** Step 5's `param_values`: positional arguments by parameter name, then
      every keyword argument written over it. */
  function PairParams<V>(names: seq<string>, args: seq<V>, kwargs: Dict.Dict<string, V>): Dict.Dict<string, V> {
    Dict.PutAll(Dict.PutAll([], Zip(names, args)), kwargs)
  }

  /** Parameter names are distinct, as in any Python signature. */
  predicate DistinctNames(names: seq<string>) {
    forall i, j :: 0 <= i < j < |names| ==> names[i] != names[j]
  }

  /** With distinct names, the zipped pairs give each parameter that has an
      argument that argument, and no other name an entry. */
  lemma ZipGet<V>(names: seq<string>, args: seq<V>, k: string)
    requires DistinctNames(names)
    ensures forall i :: 0 <= i < |names| && i < |args| && names[i] == k ==>
              Dict.Get(Zip(names, args), k) == Some(args[i])
    ensures (forall i :: 0 <= i < |names| && i < |args| ==> names[i] != k) ==>
              Dict.Get(Zip(names, args), k).None?
  {
    var z := Zip(names, args);
    forall i | 0 <= i < |names| && i < |args| && names[i] == k
      ensures Dict.Get(z, k) == Some(args[i])
    {
      assert Dict.Keys(z)[i] == k;
      Dict.GetUniform(z, k, args[i]);
    }
    if forall i :: 0 <= i < |names| && i < |args| ==> names[i] != k {
      assert forall i :: 0 <= i < |z| ==> Dict.Keys(z)[i] != k;
    }
  }

  /** A keyword argument wins; otherwise a parameter takes the positional
      argument in its position when there is one; a name with neither has no
      entry. */
  lemma PairParamsGet<V>(names: seq<string>, args: seq<V>, kwargs: Dict.Dict<string, V>, k: string)
    requires DistinctNames(names)
    ensures k in Dict.Keys(kwargs) ==> Dict.Get(PairParams(names, args, kwargs), k) == Dict.Get(kwargs, k)
    ensures forall i :: 0 <= i < |names| && i < |args| && names[i] == k && k !in Dict.Keys(kwargs) ==>
              Dict.Get(PairParams(names, args, kwargs), k) == Some(args[i])
    ensures k !in Dict.Keys(kwargs) && (forall i :: 0 <= i < |names| && i < |args| ==> names[i] != k) ==>
              Dict.Get(PairParams(names, args, kwargs), k).None?
  {
    var z := Zip(names, args);
    var empty: Dict.Dict<string, V> := [];
    var positional := Dict.PutAll(empty, z);
    Dict.PutAllGet(positional, kwargs, k);
    Dict.PutAllGet(empty, z, k);
    assert Dict.Get(empty, k).None?;
    assert Dict.Get(positional, k) == Dict.Get(z, k);
    ZipGet(names, args, k);
  }

  /** `re.sub(r"driver\[_run_test_id\]", "driver", line)`. */
  function DriverRewrite(line: string): string {
    ReplaceAll(line, DRIVER_ENTRY, DRIVER)
  }

  /** A line without the indexed driver passes through unchanged. */
  lemma DriverRewriteUntouched(line: string)
    requires !Contains(line, DRIVER_ENTRY)
    ensures DriverRewrite(line) == line
  {
    ReplaceAllNoMatch(line, DRIVER_ENTRY, DRIVER);
  }

  /** Each rewrite shortens the line by the 14 characters of `[_run_test_id]`
      and by nothing else. */
  lemma DriverRewriteLength(line: string)
    ensures |DriverRewrite(line)| == |line| - 14 * CountMatches(line, DRIVER_ENTRY)
    ensures |DriverRewrite(line)| == |line| <==> !Contains(line, DRIVER_ENTRY)
  {
    ReplaceAllLength(line, DRIVER_ENTRY, DRIVER);
    CountMatchesZeroIff(line, DRIVER_ENTRY);
  }

  /** The first occurrence becomes `driver`; the text before it is kept and the
      text after it is rewritten the same way. */
  lemma DriverRewriteFirst(before: string, after: string)
    requires forall i :: 0 <= i < |before| ==> !StartsWith((before + DRIVER_ENTRY + after)[i..], DRIVER_ENTRY)
    ensures DriverRewrite(before + DRIVER_ENTRY + after) == before + DRIVER + DriverRewrite(after)
  {
    var rest := DRIVER_ENTRY + after;
    assert before + DRIVER_ENTRY + after == before + rest;
    ReplaceAllKeepsPrefix(before, rest, DRIVER_ENTRY, DRIVER);
    assert StartsWith(rest, DRIVER_ENTRY);
    assert rest[|DRIVER_ENTRY|..] == after;
  }
}
