/**
 The shell's parser (sh.c): tokens, the recursive descent over them, and the final pass that ends every
 string in place. A line is parsed into a tree of spans of the input buffer.
 */
module Shell {
  import opened Options
  import opened ShellGrammar

  const NUL := '\0'

  predicate White(c: char) {
    c == ' ' || c == '\t' || c == '\r' || c == '\n' || c == '\U{0B}'
  }

  predicate Symbol(c: char) {
    c == '<' || c == '|' || c == '>' || c == '&' || c == ';' || c == '(' || c == ')'
  }

  predicate WordChar(c: char) {
    !White(c) && !Symbol(c)
  }

  // ----- What a line says -----

  /** The end of the run of word characters at `i`. */
  function WordEnd(line: string, i: nat): (r: nat)
    requires i <= |line|
    ensures i <= r <= |line| && (forall k :: i <= k < r ==> WordChar(line[k])) && (r < |line| ==> !WordChar(line[r]))
    decreases |line| - i
  {
    if i < |line| && WordChar(line[i]) then WordEnd(line, i + 1) else i
  }

  function SkipWhite(line: string, i: nat): (r: nat)
    requires i <= |line|
    ensures i <= r <= |line| && (forall k :: i <= k < r ==> White(line[k])) && (r < |line| ==> !White(line[r]))
    decreases |line| - i
  {
    if i < |line| && White(line[i]) then SkipWhite(line, i + 1) else i
  }

  /** The last character before `i` that is not white space. */
  function Before(line: string, i: nat): char
    requires i <= |line|
  {
    if i == 0 then NUL else if White(line[i - 1]) then Before(line, i - 1) else line[i - 1]
  }

  /** What a tree accounts for: an argument, a redirection file, or one of the operators | & ; */
  datatype Item = Arg(w: Span) | File(r: Redirection) | Op(c: char)

  predicate IsOp(c: char) {
    c == '|' || c == '&' || c == ';'
  }

  /** A maximal run of word characters begins at `i`. */
  predicate WordStart(line: string, i: nat)
    requires i < |line|
  {
    WordChar(line[i]) && (i == 0 || !WordChar(line[i - 1]))
  }

  /** A word names a file exactly if a redirection symbol stands before it. */
  function WordItem(line: string, i: nat): Item
    requires i < |line|
  {
    var w, c := Span(i, WordEnd(line, i)), Before(line, i);
    if c == '<' then File(Redirection(w, false)) else if c == '>' then File(Redirection(w, true)) else Arg(w)
  }

  /** Every word and operator of the line that begins in `i..j`, once each. */
  function ItemsIn(line: string, i: nat, j: nat): multiset<Item>
    requires j <= |line|
    decreases j - i
  {
    if i >= j then multiset{}
    else if WordStart(line, i) then multiset{WordItem(line, i)} + ItemsIn(line, i + 1, j)
    else if IsOp(line[i]) then multiset{Op(line[i])} + ItemsIn(line, i + 1, j)
    else ItemsIn(line, i + 1, j)
  }

  // ----- What a tree says -----

  function Args(argv: seq<Span>): multiset<Item> {
    if argv == [] then multiset{} else Args(argv[..|argv| - 1]) + multiset{Arg(argv[|argv| - 1])}
  }

  function Items(cmd: Cmd): multiset<Item> {
    match cmd
    case Exec(argv) => Args(argv)
    case Redir(c, r) => Items(c) + multiset{File(r)}
    case Pipe(l, r) => Items(l) + multiset{Op('|')} + Items(r)
    case List(l, r) => Items(l) + multiset{Op(';')} + Items(r)
    case Back(c) => Items(c) + multiset{Op('&')}
  }

  function Place(x: Item): int {
    match x
    case Arg(w) => w.q
    case File(r) => r.file.q
    case Op(_) => -1
  }

  /** The words of one tree come before those of the other. */
  ghost predicate Precedes(l: Cmd, r: Cmd) {
    forall x, y :: x in Items(l) && y in Items(r) && !x.Op? && !y.Op? ==> Place(x) < Place(y)
  }

  ghost predicate Ascending(argv: seq<Span>) {
    forall i, j :: 0 <= i < j < |argv| ==> argv[i].q < argv[j].q
  }

  ghost predicate Rising(rs: seq<Redirection>) {
    forall i, j :: 0 <= i < j < |rs| ==> rs[i].file.q < rs[j].file.q
  }

  /**
   Arguments are in the order of the line, of two redirections of one command the outer one comes later, and
   what stands left of an operator is to the left in the tree.
   */
  ghost predicate Ordered(cmd: Cmd) {
    match cmd
    case Exec(argv) => Ascending(argv)
    case Redir(c, r) => Ordered(c) && (c.Redir? ==> c.redir.file.q < r.file.q)
    case Pipe(l, r) => Ordered(l) && Ordered(r) && Precedes(l, r)
    case List(l, r) => Ordered(l) && Ordered(r) && Precedes(l, r)
    case Back(c) => Ordered(c)
  }

  /** The tree accounts for exactly the words and operators of `i..j`, in order. */
  ghost predicate Accounts(line: string, i: nat, j: nat, cmd: Cmd) {
    i <= j <= |line| && Items(cmd) == ItemsIn(line, i, j) && Ordered(cmd)
  }

  // ----- Ranges of the line -----

  lemma {:induction false} ItemsSplit(line: string, i: nat, k: nat, j: nat)
    requires i <= k <= j <= |line|
    ensures ItemsIn(line, i, j) == ItemsIn(line, i, k) + ItemsIn(line, k, j)
    decreases k - i
  {
    if i < k {
      ItemsSplit(line, i + 1, k, j);
    }
  }

  lemma {:induction false} ItemsWhite(line: string, i: nat, j: nat)
    requires i <= j <= |line| && forall k :: i <= k < j ==> White(line[k])
    ensures ItemsIn(line, i, j) == multiset{}
    decreases j - i
  {
    if i < j {
      ItemsWhite(line, i + 1, j);
    }
  }

  /** Within a word no other word or operator begins. */
  lemma {:induction false} ItemsInside(line: string, i: nat, j: nat)
    requires 0 < i <= j <= |line| && forall k :: i - 1 <= k < j ==> WordChar(line[k])
    ensures ItemsIn(line, i, j) == multiset{}
    decreases j - i
  {
    if i < j {
      ItemsInside(line, i + 1, j);
    }
  }

  lemma {:induction false} ItemsPlaces(line: string, i: nat, j: nat, x: Item)
    requires i <= j <= |line| && x in ItemsIn(line, i, j) && !x.Op?
    ensures i <= Place(x) < j
    decreases j - i
  {
    if i < j && x in ItemsIn(line, i + 1, j) {
      ItemsPlaces(line, i + 1, j, x);
    }
  }

  /** The parser stands at `i`: not within a word, and no redirection waits for its file. */
  predicate Stands(line: string, i: nat) {
    && i <= |line| && (0 < i < |line| ==> !WordChar(line[i - 1]) || !WordChar(line[i]))
    && Before(line, i) != '<' && Before(line, i) != '>'
  }

  /** Not within a word. */
  predicate Between(line: string, i: nat) {
    i <= |line| && (0 < i < |line| ==> !WordChar(line[i - 1]) || !WordChar(line[i]))
  }

  lemma {:induction false} BeforeWhite(line: string, i: nat, j: nat)
    requires i <= j <= |line| && forall k :: i <= k < j ==> White(line[k])
    ensures Before(line, j) == Before(line, i)
    decreases j - i
  {
    if i < j {
      BeforeWhite(line, i, j - 1);
    }
  }

  /** Trees of adjacent ranges are in order. */
  lemma {:induction false} Adjacent(line: string, i: nat, k: nat, k': nat, j: nat, l: Cmd, r: Cmd)
    requires Accounts(line, i, k, l) && Accounts(line, k', j, r) && k <= k'
    ensures Precedes(l, r)
  {
    forall x, y | x in Items(l) && y in Items(r) && !x.Op? && !y.Op? ensures Place(x) < Place(y) {
      ItemsPlaces(line, i, k, x);
      ItemsPlaces(line, k', j, y);
    }
  }

  // ----- Tokens -----

  /** The kind of the token whose first character is at `q`; '+' stands for >> and 'a' for a word. */
  function Kind(line: string, q: nat): char
    requires q <= |line|
  {
    if q == |line| then NUL
    else if line[q] == '>' && q + 1 < |line| && line[q + 1] == '>' then '+'
    else if Symbol(line[q]) then line[q]
    else 'a'
  }

  function TokenEnd(line: string, q: nat): (r: nat)
    requires q <= |line|
    ensures q <= r <= |line|
  {
    var k := Kind(line, q);
    if k == NUL then q else if k == 'a' then WordEnd(line, q) else if k == '+' then q + 2 else q + 1
  }

  /** What a token contributes. */
  function TokenItems(line: string, q: nat): multiset<Item>
    requires q <= |line|
  {
    var k := Kind(line, q);
    if k == 'a' && q < |line| then multiset{WordItem(line, q)} else if IsOp(k) then multiset{Op(k)} else multiset{}
  }

  /** Taking a token from where the parser stands accounts for exactly that token. */
  lemma {:induction false} TakeToken(line: string, i: nat)
    requires Between(line, i) && NUL !in line
    ensures var q := SkipWhite(line, i);
            var e := TokenEnd(line, q);
            var j := SkipWhite(line, e);
            && ItemsIn(line, i, j) == TokenItems(line, q) && Between(line, j) && Before(line, q) == Before(line, i)
            && (Kind(line, q) != NUL ==> i < j && Before(line, j) == line[e - 1])
            && (Kind(line, q) == NUL ==> j == |line|)
  {
    var q := SkipWhite(line, i);
    OneToken(line, i, q);
    hide ItemsIn, TokenItems, Kind, WordChar, TokenEnd;
    var e := TokenEnd(line, q);
    var j := SkipWhite(line, e);
    ItemsSplit(line, i, q, j);
    ItemsSplit(line, q, e, j);
    ItemsWhite(line, i, q);
    ItemsWhite(line, e, j);
    BeforeWhite(line, i, q);
    BeforeWhite(line, e, j);
    StillBetween(line, e, j);
  }

  lemma {:induction false} StillBetween(line: string, e: nat, j: nat)
    requires Between(line, e) && e <= j <= |line| && forall k :: e <= k < j ==> White(line[k])
    ensures Between(line, j)
  {
  }

  lemma {:induction false} ItemsStep(line: string, i: nat, j: nat)
    requires i < j <= |line|
    ensures ItemsIn(line, i, j) == ItemsIn(line, i + 1, j)
      + if WordStart(line, i) then multiset{WordItem(line, i)} else if IsOp(line[i]) then multiset{Op(line[i])} else multiset{}
    ensures ItemsIn(line, j, j) == multiset{}
  {
  }

  lemma {:induction false} OneToken(line: string, i: nat, q: nat)
    requires Between(line, i) && NUL !in line && q == SkipWhite(line, i)
    ensures var e := TokenEnd(line, q);
            && ItemsIn(line, q, e) == TokenItems(line, q) && Between(line, e)
            && (Kind(line, q) != NUL ==> q < e && Before(line, e) == line[e - 1])
            && (Kind(line, q) == NUL ==> q == e == |line|)
  {
    hide ItemsIn, WordItem, Before, WordEnd, SkipWhite;
    var e := TokenEnd(line, q);
    if q < |line| {
      assert line[q] in line;
      assert q == i || White(line[q - 1]);
      if Kind(line, q) == 'a' {
        WordToken(line, q);
      } else {
        SymbolToken(line, q);
      }
    } else {
      ItemsWhite(line, q, q);
    }
  }

  lemma {:induction false} BeforeHere(line: string, e: nat)
    requires 0 < e <= |line| && !White(line[e - 1])
    ensures Before(line, e) == line[e - 1]
  {
  }

  lemma {:induction false} WordToken(line: string, q: nat)
    requires q < |line| && WordStart(line, q)
    ensures var e := WordEnd(line, q);
            && q < e && ItemsIn(line, q, e) == multiset{WordItem(line, q)}
            && Before(line, e) == line[e - 1] && WordChar(line[e - 1]) && Between(line, e)
  {
    var e := WordEnd(line, q);
    hide ItemsIn, WordItem, Before;
    ItemsStep(line, q, e);
    ItemsInside(line, q + 1, e);
    BeforeHere(line, e);
  }

  lemma {:induction false} SymbolToken(line: string, q: nat)
    requires q < |line| && Symbol(line[q])
    ensures var e := TokenEnd(line, q);
            && q < e && ItemsIn(line, q, e) == (if IsOp(line[q]) then multiset{Op(line[q])} else multiset{})
            && Before(line, e) == line[e - 1] && Between(line, e)
  {
    hide ItemsIn, WordItem, Before;
    var e := TokenEnd(line, q);
    ItemsStep(line, q, e);
    if Kind(line, q) == '+' {
      ItemsStep(line, q + 1, e);
    }
    BeforeHere(line, e);
  }

  /** The tokens of the line from `i` on. */
  function Tokens(line: string, i: nat): Toks
    requires i <= |line|
    decreases |line| - i
  {
    var q := SkipWhite(line, i);
    if q == |line| then [] else [Tok(Kind(line, q), Span(q, TokenEnd(line, q)))] + Tokens(line, TokenEnd(line, q))
  }

  lemma {:induction false} TokensWhite(line: string, i: nat)
    requires i <= |line|
    ensures Tokens(line, SkipWhite(line, i)) == Tokens(line, i)
  {
    SkipNone(line, SkipWhite(line, i));
  }

  /** gettoken takes the first token. */
  lemma {:induction false} TokensStep(line: string, i: nat)
    requires i <= |line|
    ensures var q := SkipWhite(line, i);
            && (Kind(line, q) == NUL && NUL !in line ==> Tokens(line, i) == [])
            && (q < |line| ==>
                  Tokens(line, i) == [Tok(Kind(line, q), Span(q, TokenEnd(line, q)))] + Tokens(line, SkipWhite(line, TokenEnd(line, q))))
            && (q == |line| ==> Tokens(line, i) == [])
  {
    var q := SkipWhite(line, i);
    assert q < |line| ==> line[q] in line;
    TokensWhite(line, TokenEnd(line, q));
  }

  /** What peek sees is the kind of the next token. */
  lemma {:induction false} TokensPeek(line: string, i: nat)
    requires i <= |line| && SkipWhite(line, i) == i
    ensures var ts := Tokens(line, i);
            && (ts == [] <==> i == |line|)
            && (i < |line| ==> ts[0].kind == Kind(line, i) && (RedirKind(ts[0].kind) <==> line[i] == '<' || line[i] == '>'))
            && (i < |line| ==> (Starts(ts, '(') <==> line[i] == '(') && (Starts(ts, ')') <==> line[i] == ')')
                               && (Starts(ts, '|') <==> line[i] == '|'))
            && (i < |line| ==> (Starts(ts, '&') <==> line[i] == '&') && (Starts(ts, ';') <==> line[i] == ';'))
  {
    TokensStep(line, i);
  }

  /** A result of the parser is that of the descent over tokens, with these tokens left. */
  ghost predicate Agrees(r: Option<Cmd>, spec: Option<Rest<Cmd>>, line: string, pos: nat) {
    match r
    case None => spec.None?
    case Some(cmd) => pos <= |line| && spec == Some(Rest(cmd, Tokens(line, pos)))
  }

  /** Redirections taken before those of `r`. */
  function Preceded(rs: seq<Redirection>, r: Option<Rest<seq<Redirection>>>): Option<Rest<seq<Redirection>>> {
    match r
    case None => None
    case Some(x) => Some(Rest(rs + x.value, x.ts))
  }

  /** One more redirection, if a word follows the symbol. */
  lemma {:induction false} OneRedir(ts: Toks, rs: seq<Redirection>)
    requires ts != [] && RedirKind(ts[0].kind)
    ensures |ts| < 2 || ts[1].kind != 'a' ==> TakeRedirs(ts).None?
    ensures |ts| >= 2 && ts[1].kind == 'a' ==>
      Preceded(rs, TakeRedirs(ts)) == Preceded(rs + [Redirection(ts[1].w, ts[0].kind != '<')], TakeRedirs(ts[2..]))
  {
    if |ts| >= 2 && ts[1].kind == 'a' && TakeRedirs(ts[2..]).Some? {
      Glue(rs, [Redirection(ts[1].w, ts[0].kind != '<')], TakeRedirs(ts[2..]).value.value);
    }
  }

  /** The first two tokens, taken one after the other. */
  lemma {:induction false} TwoTokens(line: string, i: nat)
    requires i < |line| && SkipWhite(line, i) == i
    ensures var i1 := SkipWhite(line, TokenEnd(line, i));
            var q := SkipWhite(line, i1);
            var ts := Tokens(line, i);
            && ts != [] && ts[0].kind == Kind(line, i)
            && (q == |line| ==> |ts| == 1)
            && (q < |line| ==> |ts| >= 2 && ts[1] == Tok(Kind(line, q), Span(q, TokenEnd(line, q)))
                               && ts[2..] == Tokens(line, SkipWhite(line, TokenEnd(line, q))))
  {
    hide TokenEnd, Kind, SkipWhite;
    TokensStep(line, i);
    var i1 := SkipWhite(line, TokenEnd(line, i));
    TokensStep(line, i1);
  }

  // ----- Redirections -----

  function Files(rs: seq<Redirection>): multiset<Item> {
    if rs == [] then multiset{} else Files(rs[..|rs| - 1]) + multiset{File(rs[|rs| - 1])}
  }

  lemma {:induction false} WrapItems(cmd: Cmd, rs: seq<Redirection>)
    requires Rising(rs) && (cmd.Redir? && rs != [] ==> cmd.redir.file.q < rs[0].file.q)
    ensures Items(Wrap(cmd, rs)) == Items(cmd) + Files(rs) && (Ordered(Wrap(cmd, rs)) <==> Ordered(cmd))
    decreases |rs|
  {
    if rs != [] {
      WrapItems(cmd, rs[..|rs| - 1]);
    }
  }

  lemma {:induction false} InFiles(rs: seq<Redirection>, k: nat)
    requires k < |rs|
    ensures File(rs[k]) in Files(rs)
    decreases |rs|
  {
    if k < |rs| - 1 {
      InFiles(rs[..|rs| - 1], k);
    }
  }

  /** Redirections of adjacent ranges are in order. */
  lemma {:induction false} RisingJoin(line: string, i: nat, k: nat, j: nat, rs: seq<Redirection>, more: seq<Redirection>)
    requires i <= k <= j <= |line| && Files(rs) <= ItemsIn(line, i, k) && Files(more) <= ItemsIn(line, k, j)
    requires Rising(rs) && Rising(more)
    ensures Rising(rs + more)
  {
    hide Files, ItemsIn;
    forall x, y | 0 <= x < |rs| && 0 <= y < |more| ensures rs[x].file.q < more[y].file.q {
      InFiles(rs, x);
      InFiles(more, y);
      ItemsPlaces(line, i, k, File(rs[x]));
      ItemsPlaces(line, k, j, File(more[y]));
    }
  }

  lemma {:induction false} FilesLast(rs: seq<Redirection>)
    ensures if rs == [] then Files(rs) == multiset{} else Files(rs) == Files(rs[..|rs| - 1]) + multiset{File(rs[|rs| - 1])}
  {
  }

  lemma {:induction false} FilesJoin(rs: seq<Redirection>, more: seq<Redirection>)
    ensures Files(rs + more) == Files(rs) + Files(more)
    decreases |more|
  {
    hide Files;
    FilesLast(more);
    FilesLast(rs + more);
    if more == [] {
      assert rs + more == rs;
    } else {
      var front := more[..|more| - 1];
      FilesJoin(rs, front);
      assert (rs + more)[..|rs + more| - 1] == rs + front;
      Regroup(Files(rs), Files(front), multiset{File(more[|more| - 1])});
    }
  }

  lemma {:induction false} Regroup(a: multiset<Item>, b: multiset<Item>, c: multiset<Item>)
    ensures a + b + c == a + (b + c)
  {
  }

  /** One more redirection, of the range after those before it. */
  lemma {:induction false} AddFile(line: string, i: nat, k: nat, j: nat, rs: seq<Redirection>, r: Redirection)
    requires i <= k <= j <= |line| && Files(rs) == ItemsIn(line, i, k) && ItemsIn(line, k, j) == multiset{File(r)} && Rising(rs)
    ensures Files(rs + [r]) == ItemsIn(line, i, j) && Rising(rs + [r])
  {
    hide ItemsIn;
    assert [r][..0] == [] && Files([r]) == multiset{File(r)};
    assert (rs + [r])[..|rs|] == rs;
    RisingJoin(line, i, k, j, rs, [r]);
    ItemsSplit(line, i, k, j);
  }

  /** A redirection symbol and the word after it are one redirection. */
  lemma {:induction false} RedirTokens(line: string, i: nat)
    requires Stands(line, i) && NUL !in line && i < |line| && (line[i] == '<' || line[i] == '>')
    ensures var i1 := SkipWhite(line, TokenEnd(line, i));
            var q := SkipWhite(line, i1);
            var e := TokenEnd(line, q);
            var j := SkipWhite(line, e);
            Kind(line, q) == 'a' ==>
              i < j && Stands(line, j) && ItemsIn(line, i, j) == multiset{File(Redirection(Span(q, e), line[i] == '>'))}
  {
    hide ItemsIn, SkipWhite, TokenEnd, Before, Kind, Stands;
    RedirSymbol(line, i);
    var i1 := SkipWhite(line, TokenEnd(line, i));
    FileToken(line, i1);
    ItemsSplit(line, i, i1, SkipWhite(line, TokenEnd(line, SkipWhite(line, i1))));
  }

  lemma {:induction false} RedirSymbol(line: string, i: nat)
    requires Stands(line, i) && NUL !in line && i < |line| && (line[i] == '<' || line[i] == '>')
    ensures var j := SkipWhite(line, TokenEnd(line, i));
            i < j && Between(line, j) && Before(line, j) == line[i] && ItemsIn(line, i, j) == multiset{}
  {
    hide ItemsIn, SkipWhite, WordEnd, Before, WordItem;
    TakeToken(line, i);
    SkipNone(line, i);
  }

  lemma {:induction false} FileToken(line: string, i: nat)
    requires Between(line, i) && NUL !in line && (Before(line, i) == '<' || Before(line, i) == '>')
    ensures var q := SkipWhite(line, i);
            var e := TokenEnd(line, q);
            var j := SkipWhite(line, e);
            Kind(line, q) == 'a' ==>
              Stands(line, j) && ItemsIn(line, i, j) == multiset{File(Redirection(Span(q, e), Before(line, i) == '>'))}
  {
    hide ItemsIn, SkipWhite, WordEnd, Before;
    TakeToken(line, i);
  }

  // ----- Putting ranges together -----

  lemma {:induction false} StandsWhite(line: string, i: nat)
    requires Stands(line, i)
    ensures var j := SkipWhite(line, i); Stands(line, j) && ItemsIn(line, i, j) == multiset{}
  {
    var j := SkipWhite(line, i);
    ItemsWhite(line, i, j);
    BeforeWhite(line, i, j);
    StillBetween(line, i, j);
  }

  /** White space after a tree's range belongs to it. */
  lemma {:induction false} Extend(line: string, i: nat, k: nat, cmd: Cmd)
    requires Accounts(line, i, k, cmd) && Stands(line, k)
    ensures Accounts(line, i, SkipWhite(line, k), cmd) && Stands(line, SkipWhite(line, k))
  {
    StandsWhite(line, k);
    ItemsSplit(line, i, k, SkipWhite(line, k));
  }

  /** An operator token where the parser stands. */
  lemma {:induction false} OpToken(line: string, i: nat)
    requires Stands(line, i) && NUL !in line && i < |line| && Symbol(line[i]) && line[i] != '<' && line[i] != '>'
    ensures var j := SkipWhite(line, TokenEnd(line, i));
            i < j && Stands(line, j) && ItemsIn(line, i, j) == if IsOp(line[i]) then multiset{Op(line[i])} else multiset{}
  {
    hide ItemsIn, SkipWhite, WordEnd, Before, WordItem;
    TakeToken(line, i);
    SkipNone(line, i);
  }

  lemma {:induction false} SkipNone(line: string, i: nat)
    requires i <= |line| && (i < |line| ==> !White(line[i]))
    ensures SkipWhite(line, i) == i
  {
  }

  lemma {:induction false} JoinOp(line: string, i: nat, k: nat, k': nat, j: nat, l: Cmd, r: Cmd, c: char)
    requires Accounts(line, i, k, l) && k <= k' && Accounts(line, k', j, r) && ItemsIn(line, k, k') == multiset{Op(c)}
    ensures Precedes(l, r) && ItemsIn(line, i, j) == Items(l) + multiset{Op(c)} + Items(r)
  {
    Adjacent(line, i, k, k', j, l, r);
    ItemsSplit(line, i, k, j);
    ItemsSplit(line, k, k', j);
  }

  lemma {:induction false} JoinBack(line: string, i: nat, k: nat, j: nat, c: Cmd)
    requires Accounts(line, i, k, c) && k <= j <= |line| && ItemsIn(line, k, j) == multiset{Op('&')}
    ensures Accounts(line, i, j, Back(c))
  {
    ItemsSplit(line, i, k, j);
  }

  // ----- The parser -----

  class Parser {
    const line: string
    var pos: nat

    constructor (line: string)
      ensures this.line == line && pos == 0
    {
      this.line, pos := line, 0;
    }

    /** The loop over white space that peek and gettoken begin with. */
    method Skip(i: nat) returns (s: nat)
      requires i <= |line|
      ensures s == SkipWhite(line, i)
    {
      s := i;
      while s < |line| && White(line[s])
        invariant i <= s <= |line| && SkipWhite(line, s) == SkipWhite(line, i)
      {
        s := s + 1;
      }
    }

    /** The loop over the characters of a word. */
    method SkipWord(i: nat) returns (s: nat)
      requires i <= |line|
      ensures s == WordEnd(line, i)
    {
      s := i;
      while s < |line| && !White(line[s]) && !Symbol(line[s])
        invariant i <= s <= |line| && WordEnd(line, s) == WordEnd(line, i)
      {
        s := s + 1;
      }
    }

    /** peek. */
    method Peek(toks: string) returns (r: bool)
      requires pos <= |line|
      modifies this
      ensures pos == SkipWhite(line, old(pos)) && SkipWhite(line, pos) == pos && Tokens(line, pos) == Tokens(line, old(pos))
      ensures r <==> pos < |line| && line[pos] in toks
    {
      TokensWhite(line, pos);
      SkipNone(line, SkipWhite(line, pos));
      pos := Skip(pos);
      return pos < |line| && line[pos] in toks;
    }

    /** gettoken. */
    method Gettoken() returns (ret: char, q: nat, eq: nat)
      requires pos <= |line| && NUL !in line
      modifies this
      ensures q == SkipWhite(line, old(pos)) && ret == Kind(line, q) && eq == TokenEnd(line, q) && pos == SkipWhite(line, eq)
    {
      hide SkipWhite, WordEnd;
      var s := Skip(pos);
      q := s;
      if s == |line| {
        ret := NUL;
      } else {
        ret := line[s];
        assert line[s] in line;
        match line[s] {
          case '|' | '(' | ')' | ';' | '&' | '<' =>
            s := s + 1;
          case '>' =>
            s := s + 1;
            if s < |line| && line[s] == '>' {
              ret := '+';
              s := s + 1;
            }
          case _ =>
            ret := 'a';
            s := SkipWord(s);
        }
      }
      eq := s;
      pos := Skip(s);
    }

    /** parseredirs, up to wrapping the command. */
    method ParseRedirs() returns (ok: bool, rs: seq<Redirection>)
      requires Stands(line, pos) && NUL !in line
      modifies this
      ensures pos <= |line| && (ok ==> old(pos) <= pos && Stands(line, pos) && Files(rs) == ItemsIn(line, old(pos), pos) && Rising(rs))
      ensures ok <==> TakeRedirs(Tokens(line, old(pos))).Some?
      ensures ok ==> TakeRedirs(Tokens(line, old(pos))) == Some(Rest(rs, Tokens(line, pos)))
    {
      hide ItemsIn, Stands, TokenEnd, SkipWhite, WordEnd, Before, Tokens, TakeRedirs, Preceded;
      rs := [];
      StandsIn(line, pos);
      StandsWhite(line, pos);
      ItemsWhite(line, pos, pos);
      ghost var spec := TakeRedirs(Tokens(line, pos));
      NonePreceded(spec);
      var more := Peek("<>");
      while more
        invariant Stands(line, pos) && old(pos) <= pos <= |line| && Files(rs) == ItemsIn(line, old(pos), pos) && Rising(rs)
        invariant more <==> pos < |line| && line[pos] in "<>"
        invariant SkipWhite(line, pos) == pos && spec == Preceded(rs, TakeRedirs(Tokens(line, pos)))
        decreases |line| - pos, more
      {
        ghost var i := pos;
        RedirTokens(line, pos);
        TokensPeek(line, pos);
        TwoTokens(line, pos);
        OneRedir(Tokens(line, pos), rs);
        var tok, _, _ := Gettoken();
        var kind, q, eq := Gettoken();
        if kind != 'a' {
          NotPreceded(rs);
          return false, rs;
        }
        AddFile(line, old(pos), i, pos, rs, Redirection(Span(q, eq), tok != '<'));
        rs := rs + [Redirection(Span(q, eq), tok != '<')];
        ghost var j := pos;
        StandsWhite(line, pos);
        ItemsSplit(line, old(pos), j, SkipWhite(line, j));
        more := Peek("<>");
      }
      TokensPeek(line, pos);
      NoMoreRedirs(Tokens(line, pos), rs);
      ok := true;
    }

    /** parseline: a pipeline, any number of &, and the rest of a list after a ; */
    method ParseLine() returns (r: Option<Cmd>)
      requires Stands(line, pos) && NUL !in line
      modifies this
      ensures r.Some? ==> Parsed(line, old(pos), pos, r.value)
      ensures pos <= |line| && old(pos) <= |line| && Agrees(r, TakeLine(Tokens(line, old(pos))), line, pos)
      decreases |line| - pos, 3
    {
      hide ItemsIn, Accounts, Stands, TokenEnd, SkipWhite, WordEnd, Before, Tokens, TakePipe, Kind;
      ghost var i := pos;
      StandsIn(line, pos);
      ghost var ts := Tokens(line, pos);
      r := ParsePipe();
      if r.None? {
        return;
      }
      var cmd := r.value;
      Extend(line, i, pos, cmd);
      ghost var amps := TakeAmps(cmd, Tokens(line, pos));
      var more := Peek("&");
      while more
        invariant i <= pos && Parsed(line, i, pos, cmd) && SkipWhite(line, pos) == pos
        invariant more <==> pos < |line| && line[pos] in "&"
        invariant TakeAmps(cmd, Tokens(line, pos)) == amps
        decreases |line| - pos
      {
        OpToken(line, pos);
        TokensPeek(line, pos);
        TokensStep(line, pos);
        ghost var k := pos;
        var _, _, _ := Gettoken();
        JoinBack(line, i, k, pos, cmd);
        cmd := Back(cmd);
        Extend(line, i, pos, cmd);
        more := Peek("&");
      }
      TokensPeek(line, pos);
      var list := Peek(";");
      if list {
        OpToken(line, pos);
        TokensStep(line, pos);
        ghost var k := pos;
        var _, _, _ := Gettoken();
        ghost var k' := pos;
        var rest := ParseLine();
        if rest.None? {
          return None;
        }
        JoinList(line, i, k, k', pos, cmd, rest.value);
        cmd := List(cmd, rest.value);
      }
      return Some(cmd);
    }

    /** parsepipe. */
    method ParsePipe() returns (r: Option<Cmd>)
      requires Stands(line, pos) && NUL !in line
      modifies this
      ensures r.Some? ==> Parsed(line, old(pos), pos, r.value)
      ensures pos <= |line| && old(pos) <= |line| && Agrees(r, TakePipe(Tokens(line, old(pos))), line, pos)
      decreases |line| - pos, 2
    {
      hide ItemsIn, Accounts, Stands, TokenEnd, SkipWhite, WordEnd, Before, Tokens, TakeCommand, Kind;
      ghost var i := pos;
      StandsIn(line, pos);
      r := ParseExec();
      if r.None? {
        return;
      }
      var cmd := r.value;
      Extend(line, i, pos, cmd);
      var bar := Peek("|");
      TokensPeek(line, pos);
      if bar {
        OpToken(line, pos);
        TokensStep(line, pos);
        ghost var k := pos;
        var _, _, _ := Gettoken();
        ghost var k' := pos;
        var rest := ParsePipe();
        if rest.None? {
          return None;
        }
        JoinPipe(line, i, k, k', pos, cmd, rest.value);
        cmd := Pipe(cmd, rest.value);
      }
      return Some(cmd);
    }

    /** parseblock, at an open parenthesis. */
    method ParseBlock() returns (r: Option<Cmd>)
      requires Stands(line, pos) && NUL !in line && SkipWhite(line, pos) == pos && pos < |line| && line[pos] == '('
      modifies this
      ensures r.Some? ==> Parsed(line, old(pos), pos, r.value)
      ensures pos <= |line| && Starts(Tokens(line, old(pos)), '(') && Agrees(r, TakeBlock(Tokens(line, old(pos))), line, pos)
      decreases |line| - pos, 0
    {
      hide ItemsIn, Accounts, Stands, TokenEnd, SkipWhite, WordEnd, Before, Tokens, TakeLine, TakeRedirs, Kind;
      ghost var i := pos;
      StandsWhite(line, pos);
      TokensPeek(line, pos);
      var _ := Peek("(");
      OpToken(line, pos);
      TokensStep(line, pos);
      ghost var k := pos;
      var _, _, _ := Gettoken();
      ghost var k' := pos;
      r := ParseLine();
      if r.None? {
        return;
      }
      Enlarge(line, i, k, k', pos, r.value);
      Extend(line, i, pos, r.value);
      var close := Peek(")");
      TokensPeek(line, pos);
      if !close {
        return None;
      }
      OpToken(line, pos);
      TokensStep(line, pos);
      ghost var l := pos;
      var _, _, _ := Gettoken();
      Follow(line, i, l, pos, r.value);
      l := pos;
      var ok, rs := ParseRedirs();
      if !ok {
        return None;
      }
      Redirected(line, i, l, pos, r.value, rs);
      return Some(Wrap(r.value, rs));
    }

    /** The loop of parseexec: words, each with the redirections after it. */
    method ParseWords(ghost i: nat, files: seq<Redirection>) returns (ok: bool, argv: seq<Span>, rs: seq<Redirection>)
      requires Gathered(line, i, pos, [], files) && NUL !in line
      modifies this
      ensures pos <= |line| && (ok ==> Gathered(line, i, pos, argv, rs))
      ensures ok <==> TakeWords(Tokens(line, old(pos)), [], files).Some?
      ensures ok ==> TakeWords(Tokens(line, old(pos)), [], files) == Some(Rest((argv, rs), Tokens(line, pos)))
    {
      hide ItemsIn, Accounts, Stands, TokenEnd, SkipWhite, WordEnd, Before, Tokens, TakeWords, TakeRedirs, Kind, Args, Files, Ascending,
        Rising;
      argv, rs := [], files;
      ghost var spec := TakeWords(Tokens(line, pos), argv, rs);
      GatheredWhite(line, i, pos, argv, rs);
      var stop := Peek("|)&;");
      while !stop
        invariant pos <= |line| && Gathered(line, i, pos, argv, rs) && |argv| < MAXARGS
        invariant SkipWhite(line, pos) == pos && (stop <==> pos < |line| && line[pos] in "|)&;")
        invariant spec == TakeWords(Tokens(line, pos), argv, rs)
        decreases |line| - pos, !stop
      {
        TakeWord(line, i, pos, argv, rs);
        NextWord(line, pos, argv, rs);
        var tok, q, eq := Gettoken();
        if tok == NUL {
          break;
        }
        if tok != 'a' {
          return false, argv, rs;
        }
        argv := argv + [Span(q, eq)];
        if |argv| >= MAXARGS {
          return false, argv, rs;
        }
        ghost var k := pos;
        var more;
        ok, more := ParseRedirs();
        if !ok {
          return;
        }
        MoreFiles(line, i, k, pos, argv, rs, more);
        rs := rs + more;
        GatheredWhite(line, i, pos, argv, rs);
        stop := Peek("|)&;");
      }
      TokensPeek(line, pos);
      NoMoreWords(Tokens(line, pos), argv, rs);
      ok := true;
    }

    /** parseexec: a block, or the arguments and redirections of one command in any order. */
    method ParseExec() returns (r: Option<Cmd>)
      requires Stands(line, pos) && NUL !in line
      modifies this
      ensures r.Some? ==> Parsed(line, old(pos), pos, r.value)
      ensures pos <= |line| && old(pos) <= |line| && Agrees(r, TakeCommand(Tokens(line, old(pos))), line, pos)
      decreases |line| - pos, 1
    {
      hide ItemsIn, Accounts, Stands, TokenEnd, SkipWhite, WordEnd, Before, Tokens, TakeBlock, TakeWords, TakeRedirs, Kind, Gathered;
      ghost var i := pos;
      StandsWhite(line, pos);
      StandsIn(line, pos);
      var block := Peek("(");
      TokensPeek(line, pos);
      ghost var k := pos;
      if block {
        r := ParseBlock();
        if r.Some? {
          Enlarge(line, i, k, k, pos, r.value);
        }
        return;
      }
      var ok, rs := ParseRedirs();
      if !ok {
        return None;
      }
      ItemsSplit(line, i, k, pos);
      FirstGathered(line, i, pos, rs);
      var argv;
      ok, argv, rs := ParseWords(i, rs);
      if !ok {
        return None;
      }
      Finished(line, i, pos, argv, rs);
      return Some(Wrap(Exec(argv), rs));
    }

    /** parsecmd, before the strings are ended: the tree that the grammar gives the line, if it gives one. */
    method ParseCmd() returns (r: Option<Cmd>)
      requires pos == 0 && NUL !in line
      modifies this
      ensures r.Some? ==> Accounts(line, 0, |line|, r.value) && Line(Tokens(line, 0), r.value)
      ensures r.None? ==> forall cmd :: !Line(Tokens(line, 0), cmd)
    {
      hide ItemsIn, Accounts, TokenEnd, SkipWhite, WordEnd, Tokens, TakeLine, Line, Kind;
      ghost var ts := Tokens(line, 0);
      r := ParseLine();
      forall cmd ensures TakeLine(ts) == Some(Rest(cmd, [])) <==> Line(ts, cmd) {
        ExactlyTheGrammar(ts, cmd);
      }
      if r.Some? {
        Extend(line, 0, pos, r.value);
        var _ := Peek("");
        TokensPeek(line, pos);
        if pos != |line| {
          return None;
        }
      }
    }
  }

  lemma {:induction false} OneWord(ts: Toks, argv: seq<Span>, rs: seq<Redirection>)
    requires ts == [] || !Stop(ts[0].kind)
    ensures ts != [] && (ts[0].kind != 'a' || |argv| + 1 >= MAXARGS) ==> TakeWords(ts, argv, rs).None?
    ensures Starts(ts, 'a') && |argv| + 1 < MAXARGS ==>
      var x := TakeRedirs(ts[1..]);
      TakeWords(ts, argv, rs) == if x.None? then None else TakeWords(x.value.ts, argv + [ts[0].w], rs + x.value.value)
  {
  }

  /** The next token where the loop of parseexec stands. */
  lemma {:induction false} NextWord(line: string, i: nat, argv: seq<Span>, rs: seq<Redirection>)
    requires i <= |line| && SkipWhite(line, i) == i && NUL !in line
    requires i < |line| ==> line[i] != '|' && line[i] != ')' && line[i] != '&' && line[i] != ';'
    ensures var ts, e := Tokens(line, i), TokenEnd(line, i);
            && (Kind(line, i) == NUL ==> ts == [] && i == e == |line|)
            && (Kind(line, i) != NUL && (Kind(line, i) != 'a' || |argv| + 1 >= MAXARGS) ==> TakeWords(ts, argv, rs).None?)
            && (Kind(line, i) == 'a' && |argv| + 1 < MAXARGS ==>
                  var x := TakeRedirs(Tokens(line, SkipWhite(line, e)));
                  TakeWords(ts, argv, rs) == if x.None? then None else TakeWords(x.value.ts, argv + [Span(i, e)], rs + x.value.value))
  {
    hide TakeWords, TakeRedirs, SkipWhite, WordEnd;
    TokensPeek(line, i);
    TokensStep(line, i);
    assert i < |line| ==> line[i] in line;
    OneWord(Tokens(line, i), argv, rs);
  }

  lemma {:induction false} NoMoreWords(ts: Toks, argv: seq<Span>, rs: seq<Redirection>)
    requires ts == [] || Stop(ts[0].kind)
    ensures TakeWords(ts, argv, rs) == Some(Rest((argv, rs), ts))
  {
  }

  /** A tree for `i..j`, after which the parser stands at `j`. */
  ghost predicate Parsed(line: string, i: nat, j: nat, cmd: Cmd) {
    i <= j <= |line| && Stands(line, j) && Accounts(line, i, j, cmd)
  }

  lemma {:induction false} JoinPipe(line: string, i: nat, k: nat, k': nat, j: nat, l: Cmd, r: Cmd)
    requires Accounts(line, i, k, l) && k <= k' && Accounts(line, k', j, r) && ItemsIn(line, k, k') == multiset{Op('|')}
    ensures Accounts(line, i, j, Pipe(l, r))
  {
    JoinOp(line, i, k, k', j, l, r, '|');
  }

  lemma {:induction false} JoinList(line: string, i: nat, k: nat, k': nat, j: nat, l: Cmd, r: Cmd)
    requires Accounts(line, i, k, l) && k <= k' && Accounts(line, k', j, r) && ItemsIn(line, k, k') == multiset{Op(';')}
    ensures Accounts(line, i, j, List(l, r))
  {
    JoinOp(line, i, k, k', j, l, r, ';');
  }

  lemma {:induction false} Enlarge(line: string, i: nat, k: nat, k': nat, j: nat, cmd: Cmd)
    requires i <= k <= k' && Accounts(line, k', j, cmd)
    requires ItemsIn(line, i, k) == multiset{} && (k < k' ==> ItemsIn(line, k, k') == multiset{})
    ensures Accounts(line, i, j, cmd)
  {
    ItemsSplit(line, i, k, j);
    ItemsSplit(line, k, k', j);
  }

  lemma {:induction false} Follow(line: string, i: nat, k: nat, j: nat, cmd: Cmd)
    requires Accounts(line, i, k, cmd) && k <= j <= |line| && ItemsIn(line, k, j) == multiset{}
    ensures Accounts(line, i, j, cmd)
  {
    ItemsSplit(line, i, k, j);
  }

  lemma {:induction false} Redirected(line: string, i: nat, k: nat, j: nat, cmd: Cmd, rs: seq<Redirection>)
    requires Accounts(line, i, k, cmd) && k <= j <= |line| && Files(rs) == ItemsIn(line, k, j) && Rising(rs)
    ensures Accounts(line, i, j, Wrap(cmd, rs))
  {
    hide ItemsIn;
    ItemsSplit(line, i, k, j);
    if cmd.Redir? && rs != [] {
      InFiles(rs, 0);
      ItemsPlaces(line, i, k, File(cmd.redir));
      ItemsPlaces(line, k, j, File(rs[0]));
    }
    WrapItems(cmd, rs);
  }

  // ----- Arguments and redirections of one command -----

  /** So far the command has these arguments and redirections, and the parser stands at `j`. */
  ghost predicate Gathered(line: string, i: nat, j: nat, argv: seq<Span>, rs: seq<Redirection>) {
    && i <= j <= |line| && Stands(line, j) && Args(argv) + Files(rs) == ItemsIn(line, i, j)
    && Rising(rs) && Ascending(argv) && forall k :: 0 <= k < |argv| ==> argv[k].q < j
  }

  lemma {:induction false} FirstGathered(line: string, i: nat, j: nat, rs: seq<Redirection>)
    requires i <= j <= |line| && Stands(line, j) && Files(rs) == ItemsIn(line, i, j) && Rising(rs)
    ensures Gathered(line, i, j, [], rs)
  {
  }

  lemma {:induction false} GatheredWhite(line: string, i: nat, j: nat, argv: seq<Span>, rs: seq<Redirection>)
    requires Gathered(line, i, j, argv, rs)
    ensures Gathered(line, i, SkipWhite(line, j), argv, rs)
  {
    hide ItemsIn, SkipWhite;
    StandsWhite(line, j);
    ItemsSplit(line, i, j, SkipWhite(line, j));
  }

  lemma {:induction false} AddArg(argv: seq<Span>, w: Span)
    ensures Args(argv + [w]) == Args(argv) + multiset{Arg(w)}
  {
    assert (argv + [w])[..|argv|] == argv;
  }

  /** Where the parser stands a word is an argument. */
  lemma {:induction false} ArgToken(line: string, j: nat)
    requires Stands(line, j) && NUL !in line
    ensures var q := SkipWhite(line, j);
            var e := TokenEnd(line, q);
            var k := SkipWhite(line, e);
            && (Kind(line, q) == 'a' ==> j <= q < k && Stands(line, k) && ItemsIn(line, j, k) == multiset{Arg(Span(q, e))})
            && (Kind(line, q) == NUL ==> Stands(line, k) && ItemsIn(line, j, k) == multiset{})
  {
    hide ItemsIn, SkipWhite, WordEnd, Before;
    TakeToken(line, j);
  }

  /** The next token, if it is a word, is one more argument. */
  lemma {:induction false} TakeWord(line: string, i: nat, j: nat, argv: seq<Span>, rs: seq<Redirection>)
    requires Gathered(line, i, j, argv, rs) && NUL !in line
    ensures var q := SkipWhite(line, j);
            var e := TokenEnd(line, q);
            var k := SkipWhite(line, e);
            && (Kind(line, q) == 'a' ==> j < k && Gathered(line, i, k, argv + [Span(q, e)], rs))
            && (Kind(line, q) == NUL ==> Gathered(line, i, k, argv, rs))
  {
    hide ItemsIn, SkipWhite, WordEnd, TokenEnd, Kind, Stands, Args, Files;
    ArgToken(line, j);
    var q := SkipWhite(line, j);
    var e := TokenEnd(line, q);
    ItemsSplit(line, i, j, SkipWhite(line, e));
    AddArg(argv, Span(q, e));
  }

  lemma {:induction false} MoreFiles(line: string, i: nat, k: nat, j: nat, argv: seq<Span>, rs: seq<Redirection>, more: seq<Redirection>)
    requires Gathered(line, i, k, argv, rs) && k <= j <= |line| && Stands(line, j) && Files(more) == ItemsIn(line, k, j)
    requires Rising(more)
    ensures Gathered(line, i, j, argv, rs + more)
  {
    hide ItemsIn, Rising;
    RisingJoin(line, i, k, j, rs, more);
    ItemsSplit(line, i, k, j);
    FilesJoin(rs, more);
  }

  lemma {:induction false} Finished(line: string, i: nat, j: nat, argv: seq<Span>, rs: seq<Redirection>)
    requires Gathered(line, i, j, argv, rs)
    ensures Parsed(line, i, j, Wrap(Exec(argv), rs))
  {
    hide ItemsIn;
    WrapItems(Exec(argv), rs);
  }

  lemma {:induction false} NonePreceded(r: Option<Rest<seq<Redirection>>>)
    ensures Preceded([], r) == r
  {
    assert r.Some? ==> [] + r.value.value == r.value.value;
  }

  lemma {:induction false} NotPreceded(rs: seq<Redirection>)
    ensures Preceded(rs, None) == None
  {
  }

  lemma {:induction false} NoMoreRedirs(ts: Toks, rs: seq<Redirection>)
    requires ts == [] || !RedirKind(ts[0].kind)
    ensures Preceded(rs, TakeRedirs(ts)) == Some(Rest(rs, ts))
  {
    assert rs + [] == rs;
  }

  lemma {:induction false} StandsIn(line: string, i: nat)
    requires Stands(line, i)
    ensures i <= |line|
  {
  }

  // ----- Ending the strings in place -----

  /** The positions just past the strings of a tree. */
  function Ends(cmd: Cmd): set<nat> {
    match cmd
    case Exec(argv) => set w | w in argv :: w.eq
    case Redir(c, r) => Ends(c) + {r.file.eq}
    case Pipe(l, r) => Ends(l) + Ends(r)
    case List(l, r) => Ends(l) + Ends(r)
    case Back(c) => Ends(c)
  }

  /** The buffer with a NUL at each of the positions. */
  ghost predicate Ended(was: seq<char>, buf: seq<char>, ends: set<nat>) {
    |buf| == |was| && forall k: nat :: k < |was| ==> buf[k] == if k in ends then NUL else was[k]
  }

  /** The buffer that holds the line and its terminator. */
  class Buffer {
    var chars: seq<char>

    constructor (line: string)
      ensures chars == line + [NUL]
    {
      chars := line + [NUL];
    }

    /** nulterminate. */
    method Nulterminate(cmd: Cmd)
      requires forall e :: e in Ends(cmd) ==> e < |chars|
      modifies this
      ensures Ended(old(chars), chars, Ends(cmd))
      decreases cmd
    {
      match cmd {
        case Exec(argv) =>
          var i := 0;
          while i < |argv|
            invariant i <= |argv| && Ended(old(chars), chars, set w | w in argv[..i] :: w.eq)
          {
            assert argv[i] in argv && argv[i].eq in Ends(cmd);
            assert argv[..i + 1] == argv[..i] + [argv[i]];
            chars := chars[argv[i].eq := NUL];
            i := i + 1;
          }
          assert argv[..i] == argv;
        case Redir(c, r) =>
          assert Ends(c) <= Ends(cmd) && r.file.eq in Ends(cmd);
          Nulterminate(c);
          chars := chars[r.file.eq := NUL];
        case Pipe(l, r) =>
          assert Ends(l) <= Ends(cmd) && Ends(r) <= Ends(cmd);
          Nulterminate(l);
          Nulterminate(r);
        case List(l, r) =>
          assert Ends(l) <= Ends(cmd) && Ends(r) <= Ends(cmd);
          Nulterminate(l);
          Nulterminate(r);
        case Back(c) =>
          assert Ends(c) <= Ends(cmd);
          Nulterminate(c);
      }
    }
  }

  function Word(x: Item): Span
    requires !x.Op?
  {
    if x.Arg? then x.w else x.r.file
  }

  /** The C string that begins at `p`. */
  function CString(buf: seq<char>, p: nat): string
    decreases |buf| - p
  {
    if p < |buf| && buf[p] != NUL then [buf[p]] + CString(buf, p + 1) else []
  }

  lemma {:induction false} CStringIs(buf: seq<char>, p: nat, e: nat)
    requires p <= e < |buf| && buf[e] == NUL && forall k :: p <= k < e ==> buf[k] != NUL
    ensures CString(buf, p) == buf[p..e]
    decreases e - p
  {
    if p < e {
      CStringIs(buf, p + 1, e);
    }
  }

  lemma {:induction false} ItemsWords(line: string, i: nat, j: nat, x: Item)
    requires j <= |line| && x in ItemsIn(line, i, j) && !x.Op?
    ensures var w := Word(x); w.q < |line| && WordStart(line, w.q) && w.eq == WordEnd(line, w.q)
    decreases j - i
  {
    if i < j && x in ItemsIn(line, i + 1, j) {
      ItemsWords(line, i + 1, j, x);
    }
  }

  lemma {:induction false} ArgsMembers(argv: seq<Span>, w: Span)
    requires w in argv
    ensures Arg(w) in Args(argv)
  {
    var front := argv[..|argv| - 1];
    if w in front {
      ArgsMembers(front, w);
    }
  }

  /** Every end is that of a word the tree accounts for. */
  lemma {:induction false} EndsWords(cmd: Cmd, e: nat) returns (x: Item)
    requires e in Ends(cmd)
    ensures x in Items(cmd) && !x.Op? && Word(x).eq == e
    decreases cmd
  {
    match cmd {
      case Exec(argv) =>
        var w :| w in argv && w.eq == e;
        ArgsMembers(argv, w);
        x := Arg(w);
      case Redir(c, r) =>
        if e in Ends(c) {
          x := EndsWords(c, e);
        } else {
          x := File(r);
        }
      case Pipe(l, r) =>
        if e in Ends(l) {
          x := EndsWords(l, e);
        } else {
          x := EndsWords(r, e);
        }
      case List(l, r) =>
        if e in Ends(l) {
          x := EndsWords(l, e);
        } else {
          x := EndsWords(r, e);
        }
      case Back(c) =>
        x := EndsWords(c, e);
    }
  }

  lemma {:induction false} WordsEnd(cmd: Cmd, x: Item)
    requires x in Items(cmd) && !x.Op?
    ensures Word(x).eq in Ends(cmd)
    decreases cmd
  {
    match cmd {
      case Exec(argv) =>
        MembersArgs(argv, x);
      case Redir(c, r) =>
        if x in Items(c) {
          WordsEnd(c, x);
        }
      case Pipe(l, r) =>
        if x in Items(l) {
          WordsEnd(l, x);
        } else {
          WordsEnd(r, x);
        }
      case List(l, r) =>
        if x in Items(l) {
          WordsEnd(l, x);
        } else {
          WordsEnd(r, x);
        }
      case Back(c) =>
        WordsEnd(c, x);
    }
  }

  lemma {:induction false} MembersArgs(argv: seq<Span>, x: Item)
    requires x in Args(argv)
    ensures x.Arg? && x.w in argv
  {
    var front := argv[..|argv| - 1];
    if x in Args(front) {
      MembersArgs(front, x);
    }
  }

  /** Positions past the words of a tree lie in the buffer, and not within any word. */
  lemma {:induction false} EndsOutside(line: string, cmd: Cmd, e: nat)
    requires Accounts(line, 0, |line|, cmd) && e in Ends(cmd)
    ensures e <= |line| && (e < |line| ==> !WordChar(line[e]))
  {
    hide ItemsIn, Items;
    var x := EndsWords(cmd, e);
    ItemsWords(line, 0, |line|, x);
  }

  /** Once the strings are ended, each pointer in the tree reads as exactly its word. */
  lemma {:induction false} StringsRead(line: string, cmd: Cmd, buf: seq<char>, x: Item)
    requires NUL !in line && Accounts(line, 0, |line|, cmd) && Ended(line + [NUL], buf, Ends(cmd))
    requires x in Items(cmd) && !x.Op?
    ensures var w := Word(x); w.q < w.eq <= |line| && CString(buf, w.q) == line[w.q..w.eq]
  {
    hide ItemsIn, Items, Ends;
    var w := Word(x);
    ItemsWords(line, 0, |line|, x);
    WordsEnd(cmd, x);
    forall k | w.q <= k < w.eq ensures buf[k] == line[k] && buf[k] != NUL {
      if k in Ends(cmd) {
        EndsOutside(line, cmd, k);
      }
      assert line[k] in line;
    }
    CStringIs(buf, w.q, w.eq);
    assert buf[w.q..w.eq] == line[w.q..w.eq];
  }

  /** The whole of parsecmd: the tree that the grammar gives the line, if it gives one, and the strings it points to. */
  method Parse(line: string) returns (r: Option<Cmd>, buf: seq<char>)
    requires NUL !in line
    ensures r.Some? ==>
      && Line(Tokens(line, 0), r.value)
      && Items(r.value) == ItemsIn(line, 0, |line|) && Ordered(r.value)
      && forall x :: x in Items(r.value) && !x.Op? ==>
           var w := Word(x); w.q < w.eq <= |line| && CString(buf, w.q) == line[w.q..w.eq]
    ensures r.None? ==> forall cmd :: !Line(Tokens(line, 0), cmd)
  {
    hide ItemsIn, Items, Ends, Line, Tokens;
    var p := new Parser(line);
    var b := new Buffer(line);
    r := p.ParseCmd();
    if r.Some? {
      var cmd := r.value;
      forall e | e in Ends(cmd) ensures e <= |line| {
        EndsOutside(line, cmd, e);
      }
      b.Nulterminate(cmd);
      forall x | x in Items(cmd) && !x.Op?
        ensures var w := Word(x); w.q < w.eq <= |line| && CString(b.chars, w.q) == line[w.q..w.eq]
      {
        StringsRead(line, cmd, b.chars, x);
      }
    }
    buf := b.chars;
  }
}
