/** Catalogue names: splitting the trailing tags from the title, and the key that regional releases share. */
module Names {
  import opened Wrappers

  /** White space, as far as ASCII goes. */
  predicate IsSpace(c: char) { c == ' ' || '\t' <= c <= '\r' }

  /** Space, tab, line feed, vertical tab, form feed and carriage return. */
  lemma WhiteSpaceIsSixCharacters(c: char)
    ensures IsSpace(c) <==> c == ' ' || c == '\t' || c == '\n' || c == 11 as char || c == 12 as char || c == '\r'
  {
  }

  predicate Blank(s: string) { forall c :: c in s ==> IsSpace(c) }

  function TrimLeft(s: string): (r: string)
    ensures |r| <= |s|
  {
    if s != [] && IsSpace(s[0]) then TrimLeft(s[1..]) else s
  }

  function TrimRight(s: string): (r: string)
    ensures |r| <= |s|
  {
    if s != [] && IsSpace(s[|s| - 1]) then TrimRight(s[..|s| - 1]) else s
  }

  function Trim(s: string): (r: string)
    ensures |r| <= |s|
  {
    TrimRight(TrimLeft(s))
  }

  function LastIndex(s: string, c: char): (r: Option<nat>)
    ensures r.Some? ==> r.value < |s| && s[r.value] == c
  {
    if s == [] then None
    else if s[|s| - 1] == c then Some(|s| - 1)
    else LastIndex(s[..|s| - 1], c)
  }

  lemma {:induction false} LastIndexIsLast(s: string, c: char)
    ensures LastIndex(s, c).None? <==> c !in s
    ensures LastIndex(s, c).Some? ==> c !in s[LastIndex(s, c).value + 1..]
    decreases |s|
  {
    if s != [] && s[|s| - 1] != c {
      var init := s[..|s| - 1];
      LastIndexIsLast(init, c);
      assert s == init + [s[|s| - 1]];
      if LastIndex(init, c).Some? {
        var i := LastIndex(init, c).value;
        assert s[i + 1..] == init[i + 1..] + [s[|s| - 1]];
      }
    }
  }

  lemma {:induction false} LastIndexAt(s: string, c: char, k: nat)
    requires k < |s| && s[k] == c && c !in s[k + 1..]
    ensures LastIndex(s, c) == Some(k)
    decreases |s|
  {
    if k < |s| - 1 {
      var init := s[..|s| - 1];
      assert s[|s| - 1] == s[k + 1..][|s| - k - 2];
      assert s[k + 1..] == init[k + 1..] + [s[|s| - 1]];
      LastIndexAt(init, c, k);
    }
  }

  datatype Bracket = Round | Square {
    function Opening(): char { if Round? then '(' else '[' }

    function Closing(): char { if Round? then ')' else ']' }
  }

  function ClosedBy(c: char): Option<Bracket> {
    if c == ')' then Some(Round) else if c == ']' then Some(Square) else None
  }

  datatype Split = Split(tags: seq<string>, base: string)

  /** One look at the end of a name: nothing to take off, or the last group. */
  datatype Look = Bare(base: string) | Group(rest: string, tag: string)

  function LookAt(s: string): (r: Look)
    ensures r.Group? ==> |r.rest| < |s|
  {
    var t := Trim(s);
    if t == [] then Bare([])
    else
      var bracket := ClosedBy(t[|t| - 1]);
      if bracket.None? then Bare(t)
      else
        var idx := LastIndex(t, bracket.value.Opening());
        if idx.None? then Bare(t)
        else
          assert t[idx.value] != t[|t| - 1];
          Group(t[..idx.value], Trim(t[idx.value + 1..|t| - 1]))
  }

  /** The trailing bracketed groups, left to right, and what comes before them. */
  function SplitTags(s: string): Split
    decreases |s|
  {
    match LookAt(s)
    case Bare(base) => Split([], base)
    case Group(rest, tag) => Split(SplitTags(rest).tags + [tag], SplitTags(rest).base)
  }

  function Reversed(s: seq<string>): seq<string> {
    if s == [] then [] else Reversed(s[1..]) + [s[0]]
  }

  lemma {:induction false} ReversedAt(s: seq<string>)
    ensures |Reversed(s)| == |s| && forall k :: 0 <= k < |s| ==> Reversed(s)[k] == s[|s| - 1 - k]
    decreases |s|
  {
    if s != [] {
      ReversedAt(s[1..]);
    }
  }

  /** The tags were collected from the right. */
  method Reverse(s: seq<string>) returns (r: seq<string>)
    ensures r == Reversed(s)
  {
    r := s;
    var i, j := 0, |s| - 1;
    while i < j
      invariant |r| == |s| && 0 <= i && i + j == |s| - 1 && i <= j + 1
      invariant forall k :: 0 <= k < i || j < k < |s| ==> r[k] == s[|s| - 1 - k]
      invariant forall k :: i <= k <= j ==> r[k] == s[k]
    {
      r := r[i := r[j]][j := r[i]];
      i, j := i + 1, j - 1;
    }
    ReversedAt(s);
  }

  /** One turn of the loop: the group at the end, if there is one with both its brackets. */
  method TakeOff(s: string) returns (look: Look)
    ensures look == LookAt(s)
  {
    var trimmed := Trim(s);
    if |trimmed| == 0 {
      return Bare(trimmed);
    }
    var bracket := ClosedBy(trimmed[|trimmed| - 1]);
    if bracket.None? {
      return Bare(trimmed);
    }
    var idx := LastIndex(trimmed, bracket.value.Opening());
    if idx.None? {
      return Bare(trimmed);
    }
    look := Group(trimmed[..idx.value], Trim(trimmed[idx.value + 1..|trimmed| - 1]));
  }

  /** The loop that peels one group at a time off the end. It always ends. */
  method PeelTags(s: string) returns (tags: seq<string>, base: string)
    ensures Split(tags, base) == SplitTags(s)
  {
    base, tags := s, [];
    assert Peeled(s, s, []);
    var look := TakeOff(base);
    while look.Group?
      invariant look == LookAt(base)
      invariant Peeled(s, base, tags)
      decreases |base|
    {
      PeeledFurther(s, base, tags, look);
      base, tags := look.rest, tags + [look.tag];
      look := TakeOff(base);
    }
    PeeledOff(s, base, tags, look);
    base := look.base;
    tags := Reverse(tags);
  }

  /** The groups taken off so far stand, in reverse, behind those of what is left. */
  ghost predicate Peeled(s: string, base: string, tags: seq<string>) {
    SplitTags(s) == Split(SplitTags(base).tags + Reversed(tags), SplitTags(base).base)
  }

  lemma PeeledFurther(s: string, base: string, tags: seq<string>, look: Look)
    requires Peeled(s, base, tags) && look == LookAt(base) && look.Group?
    ensures Peeled(s, look.rest, tags + [look.tag])
  {
    Regrouped(SplitTags(look.rest).tags, look.tag, tags);
  }

  lemma Regrouped(left: seq<string>, tag: string, tags: seq<string>)
    ensures (left + [tag]) + Reversed(tags) == left + Reversed(tags + [tag])
  {
    ReversedGrows(tags, tag);
  }

  lemma PeeledOff(s: string, base: string, tags: seq<string>, look: Look)
    requires Peeled(s, base, tags) && look == LookAt(base) && look.Bare?
    ensures SplitTags(s) == Split(Reversed(tags), look.base)
  {
  }

  lemma {:induction false} ReversedGrows(s: seq<string>, x: string)
    ensures Reversed(s + [x]) == [x] + Reversed(s)
    decreases |s|
  {
    if s != [] {
      assert (s + [x])[1..] == s[1..] + [x];
      ReversedGrows(s[1..], x);
    }
  }

  // ---- White space at the ends ----

  lemma {:induction false} TrimLeftKeeps(s: string)
    ensures TrimLeft(s) == [] || !IsSpace(TrimLeft(s)[0])
    decreases |s|
  {
    if s != [] && IsSpace(s[0]) {
      TrimLeftKeeps(s[1..]);
    }
  }

  lemma {:induction false} TrimRightKeeps(s: string)
    ensures TrimRight(s) <= s
    ensures TrimRight(s) == [] || !IsSpace(TrimRight(s)[|TrimRight(s)| - 1])
    decreases |s|
  {
    if s != [] && IsSpace(s[|s| - 1]) {
      TrimRightKeeps(s[..|s| - 1]);
    }
  }

  lemma TrimTwice(s: string)
    ensures Trim(Trim(s)) == Trim(s)
  {
    TrimLeftKeeps(s);
    TrimRightKeeps(TrimLeft(s));
  }

  /** What is trimmed on the left does not reach past a solid character. */
  lemma {:induction false} TrimLeftUpTo(u: string, v: string)
    requires v != [] && !IsSpace(v[0])
    ensures TrimLeft(u + v) == TrimLeft(u) + v
    decreases |u|
  {
    if u == [] {
      assert u + v == v;
    } else if IsSpace(u[0]) {
      assert (u + v)[1..] == u[1..] + v;
      TrimLeftUpTo(u[1..], v);
    }
  }

  lemma {:induction false} TrimLeftBlank(u: string, sep: string)
    requires Blank(sep)
    ensures TrimRight(TrimLeft(u + sep)) == TrimRight(TrimLeft(u))
    decreases |sep|
  {
    if sep == [] {
      assert u + sep == u;
    } else {
      var init := sep[..|sep| - 1];
      assert u + sep == (u + init) + [sep[|sep| - 1]];
      assert sep[|sep| - 1] in sep;
      TrimLeftBlank(u, init);
      OneMoreBlank(u + init, sep[|sep| - 1]);
    }
  }

  lemma {:induction false} OneMoreBlank(u: string, c: char)
    requires IsSpace(c)
    ensures Trim(u + [c]) == Trim(u)
    decreases |u|
  {
    if u == [] {
      assert u + [c] == [c];
      assert [c][1..] == [];
    } else if IsSpace(u[0]) {
      assert (u + [c])[1..] == u[1..] + [c];
      OneMoreBlank(u[1..], c);
    } else {
      assert (u + [c])[..|u|] == u;
    }
  }

  /** Splitting looks at the trimmed name only. */
  lemma SplitIgnoresEnds(s: string, t: string)
    requires Trim(s) == Trim(t)
    ensures SplitTags(s) == SplitTags(t)
  {
    assert LookAt(s) == LookAt(t);
  }

  // ---- Printing and splitting ----

  datatype Tag = Tag(gap: string, bracket: Bracket, text: string) {
    function Printed(): string { gap + [bracket.Opening()] + text + [bracket.Closing()] }
  }

  /** A tag at the end of any name is the group seen there. */
  lemma AppendedTagIsSeen(s: string, t: Tag)
    requires Blank(t.gap) && t.bracket.Opening() !in t.text
    ensures LookAt(s + t.Printed()) == Group(TrimLeft(s + t.gap), Trim(t.text))
  {
    var open, close := t.bracket.Opening(), t.bracket.Closing();
    var head := TrimLeft(s + t.gap);
    var k := |head|;
    TrimsTo(s, t);
    var n := Trim(s + t.Printed());
    assert n[|n| - 1] == close && ClosedBy(close) == Some(t.bracket);
    assert n[k + 1..] == t.text + [close];
    LastIndexAt(n, open, k);
    assert n[..k] == head && n[k + 1..|n| - 1] == t.text;
  }

  lemma TrimsTo(s: string, t: Tag)
    requires Blank(t.gap)
    ensures Trim(s + t.Printed()) == TrimLeft(s + t.gap) + [t.bracket.Opening()] + t.text + [t.bracket.Closing()]
  {
    var v := [t.bracket.Opening()] + t.text + [t.bracket.Closing()];
    assert s + t.Printed() == (s + t.gap) + v;
    TrimLeftUpTo(s + t.gap, v);
    var n := TrimLeft(s + t.gap) + v;
    assert n[|n| - 1] == t.bracket.Closing();
    assert n == TrimLeft(s + t.gap) + [t.bracket.Opening()] + t.text + [t.bracket.Closing()];
  }

  /** A tag put at the end of any name is split off again, and the rest splits as before. */
  lemma CleanTagIsSplitOff(s: string, t: Tag)
    requires Blank(t.gap) && t.bracket.Opening() !in t.text
    ensures SplitTags(s + t.Printed()) == Split(SplitTags(s).tags + [Trim(t.text)], SplitTags(s).base)
  {
    AppendedTagIsSeen(s, t);
    var head := TrimLeft(s + t.gap);
    TrimLeftBlank(s, t.gap);
    TrimLeftTwice(s + t.gap);
    SplitIgnoresEnds(head, s);
  }

  /** The group is taken to begin at the last opening bracket inside the text. */
  lemma LastTagOf(s: string, t: Tag)
    requires Blank(t.gap) && t.bracket.Opening() in t.text
    ensures var tags := SplitTags(s + t.Printed()).tags; tags != [] && tags[|tags| - 1] != Trim(t.text)
  {
    var open := t.bracket.Opening();
    LastIndexIsLast(t.text, open);
    var i := LastIndex(t.text, open).value;
    var inner := Tag("", t.bracket, t.text[i + 1..]);
    var outer := s + t.gap + [open] + t.text[..i];
    assert t.text == t.text[..i] + [open] + t.text[i + 1..];
    assert s + t.Printed() == outer + inner.Printed();
    CleanTagIsSplitOff(outer, inner);
    TrimKeepsSolid(t.text, open);
    TrimAddsNothing(inner.text, open);
  }

  /** That is so exactly when the text does not contain the bracket that opens it. */
  lemma AppendedTagIsSplitOff(s: string, t: Tag)
    requires Blank(t.gap)
    ensures SplitTags(s + t.Printed()) == Split(SplitTags(s).tags + [Trim(t.text)], SplitTags(s).base)
            <==> t.bracket.Opening() !in t.text
  {
    if t.bracket.Opening() in t.text {
      LastTagOf(s, t);
    } else {
      CleanTagIsSplitOff(s, t);
    }
  }

  lemma TrimLeftTwice(s: string)
    ensures TrimLeft(TrimLeft(s)) == TrimLeft(s)
  {
    TrimLeftKeeps(s);
  }

  lemma {:induction false} TrimLeftSolid(s: string, c: char)
    requires !IsSpace(c)
    ensures c in TrimLeft(s) <==> c in s
    decreases |s|
  {
    if s != [] && IsSpace(s[0]) {
      assert s == [s[0]] + s[1..];
      TrimLeftSolid(s[1..], c);
    }
  }

  lemma {:induction false} TrimRightSolid(s: string, c: char)
    requires !IsSpace(c)
    ensures c in TrimRight(s) <==> c in s
    decreases |s|
  {
    if s != [] && IsSpace(s[|s| - 1]) {
      assert s == s[..|s| - 1] + [s[|s| - 1]];
      TrimRightSolid(s[..|s| - 1], c);
    }
  }

  lemma TrimKeepsSolid(s: string, c: char)
    requires !IsSpace(c) && c in s
    ensures c in Trim(s)
  {
    TrimLeftSolid(s, c);
    TrimRightSolid(TrimLeft(s), c);
  }

  lemma TrimAddsNothing(s: string, c: char)
    requires !IsSpace(c) && c !in s
    ensures c !in Trim(s)
  {
    TrimLeftSolid(s, c);
    TrimRightSolid(TrimLeft(s), c);
  }

  function Print(base: string, tags: seq<Tag>): string {
    if tags == [] then base else Print(base, tags[..|tags| - 1]) + tags[|tags| - 1].Printed()
  }

  function Texts(tags: seq<Tag>): seq<string> {
    if tags == [] then [] else Texts(tags[..|tags| - 1]) + [tags[|tags| - 1].text]
  }

  /** A title that splitting leaves alone, and a tag it gives back as it was. */
  predicate PlainTitle(base: string) { Trim(base) == base && (base == [] || ClosedBy(base[|base| - 1]).None?) }

  predicate PlainTag(t: Tag) { Blank(t.gap) && Trim(t.text) == t.text && t.bracket.Opening() !in t.text }

  lemma TitleSplits(base: string)
    requires PlainTitle(base)
    ensures SplitTags(base) == Split([], base)
  {
  }

  lemma TagSplits(s: string, tags: seq<string>, base: string, t: Tag)
    requires PlainTag(t) && SplitTags(s) == Split(tags, base)
    ensures SplitTags(s + t.Printed()) == Split(tags + [t.text], base)
  {
    CleanTagIsSplitOff(s, t);
  }

  /** Behind any name at all, printed tags are split off again, in order, and the name splits as before. */
  lemma {:induction false} PrintedTagsSplitOff(name: string, tags: seq<Tag>)
    requires forall i :: 0 <= i < |tags| ==> PlainTag(tags[i])
    ensures SplitTags(Print(name, tags)) == Split(SplitTags(name).tags + Texts(tags), SplitTags(name).base)
    decreases |tags|
  {
    var whole := SplitTags(name);
    if tags == [] {
      assert whole.tags + [] == whole.tags;
    } else {
      var init, last := tags[..|tags| - 1], tags[|tags| - 1];
      PrintedTagsSplitOff(name, init);
      TagSplits(Print(name, init), whole.tags + Texts(init), whole.base, last);
      assert whole.tags + (Texts(init) + [last.text]) == whole.tags + Texts(init) + [last.text];
    }
  }

  /** Printing a title and its tags and splitting the result gives them back. */
  lemma PrintThenSplit(base: string, tags: seq<Tag>)
    requires PlainTitle(base) && forall i :: 0 <= i < |tags| ==> PlainTag(tags[i])
    ensures SplitTags(Print(base, tags)) == Split(Texts(tags), base)
  {
    TitleSplits(base);
    PrintedTagsSplitOff(base, tags);
    assert [] + Texts(tags) == Texts(tags);
  }

  // ---- The canonical key ----

  const BIOS := "[BIOS]"

  predicate HasPrefix(s: string, prefix: string) { prefix <= s }

  /** The words of a title, one space between them. */
  function NormalizeKey(s: string): string
    decreases |s|
  {
    var t := TrimLeft(s);
    TrimLeftKeeps(s);
    if t == [] then []
    else
      var n := WordLength(t);
      var rest := NormalizeKey(t[n..]);
      if rest == [] then t[..n] else t[..n] + " " + rest
  }

  function WordLength(t: string): (n: nat)
    requires t != [] && !IsSpace(t[0])
    ensures 0 < n <= |t|
  {
    if |t| == 1 || IsSpace(t[1]) then 1 else 1 + WordLength(t[1..])
  }

  lemma {:induction false} WordStops(w: string, rest: string)
    requires w != [] && (forall c :: c in w ==> !IsSpace(c)) && (rest == [] || IsSpace(rest[0]))
    ensures !IsSpace((w + rest)[0]) && WordLength(w + rest) == |w|
    decreases |w|
  {
    assert w[0] in w;
    if |w| > 1 {
      assert w[1] in w;
      assert (w + rest)[1..] == w[1..] + rest;
      WordStops(w[1..], rest);
    }
  }

  lemma {:induction false} WordIsSolid(t: string)
    requires t != [] && !IsSpace(t[0])
    ensures forall c :: c in t[..WordLength(t)] ==> !IsSpace(c)
    ensures WordLength(t) < |t| ==> IsSpace(t[WordLength(t)])
    decreases |t|
  {
    if |t| > 1 && !IsSpace(t[1]) {
      WordIsSolid(t[1..]);
      assert t[..WordLength(t)] == [t[0]] + t[1..][..WordLength(t[1..])];
    }
  }

  /** Spacing does not matter: a normalized title is its own normal form. */
  lemma {:induction false} NormalizedKeyIsNormal(s: string)
    ensures NormalizeKey(NormalizeKey(s)) == NormalizeKey(s)
    decreases |s|
  {
    var t := TrimLeft(s);
    TrimLeftKeeps(s);
    if t != [] {
      var w, rest := t[..WordLength(t)], NormalizeKey(t[WordLength(t)..]);
      WordIsSolid(t);
      NormalizedKeyIsNormal(t[WordLength(t)..]);
      if rest == [] {
        WordStops(w, []);
        assert w + [] == w;
        assert w[|w|..] == [];
      } else {
        WordStops(w, " " + rest);
        var key := w + " " + rest;
        assert key == w + (" " + rest) && key[|w|..] == " " + rest;
        assert (" " + rest)[1..] == rest;
      }
    }
  }

  /** What is left of a name to split: a BIOS marker in front is set aside. */
  function Work(name: string): string {
    var work := Trim(name);
    if HasPrefix(work, BIOS) then Trim(work[|BIOS|..]) else work
  }

  function CanonicalKey(name: string): string { NormalizeKey(SplitTags(Work(name)).base) }

  /** A name is what is left after trimming, and blanks. */
  lemma {:induction false} TrimRightSplits(s: string)
    ensures TrimRight(s) <= s && Blank(s[|TrimRight(s)|..])
    decreases |s|
  {
    if s != [] && IsSpace(s[|s| - 1]) {
      var init := s[..|s| - 1];
      TrimRightSplits(init);
      assert s[|TrimRight(s)|..] == init[|TrimRight(init)|..] + [s[|s| - 1]];
    }
  }

  lemma {:induction false} TrimLeftPast(u: string, v: string)
    requires TrimLeft(u) != []
    ensures TrimLeft(u + v) == TrimLeft(u) + v
    decreases |u|
  {
    if u != [] && IsSpace(u[0]) {
      assert (u + v)[1..] == u[1..] + v;
      TrimLeftPast(u[1..], v);
    }
  }

  lemma {:induction false} BlankTrimsAway(s: string)
    ensures TrimLeft(s) == [] <==> Blank(s)
    decreases |s|
  {
    if s != [] {
      assert s == [s[0]] + s[1..];
      BlankTrimsAway(s[1..]);
    }
  }

  /** The trimmed name, blanks, and the tag. */
  lemma TaggedIs(name: string, t: Tag) returns (gap: string)
    requires Blank(t.gap)
    ensures Blank(gap) && TrimLeft(name + t.gap) == Trim(name) + gap && (Trim(name) == [] ==> gap == [])
    ensures Trim(name + t.Printed()) == Trim(name) + Tag(gap, t.bracket, t.text).Printed()
  {
    var l := TrimLeft(name);
    TrimRightSplits(l);
    TrimsTo(name, t);
    if l == [] {
      BlankTrimsAway(name);
      BlankTrimsAway(name + t.gap);
      gap := [];
    } else {
      TrimLeftPast(name, t.gap);
      TrimLeftKeeps(name);
      gap := l[|Trim(name)|..] + t.gap;
      assert l == Trim(name) + l[|Trim(name)|..];
      TrimRightSolid(l, l[0]);
    }
    var tag := Tag(gap, t.bracket, t.text);
    assert Trim(name) + tag.Printed() == TrimLeft(name + t.gap) + [t.bracket.Opening()] + t.text + [t.bracket.Closing()];
  }

  /** Behind at least one solid character a tag cannot complete the marker. */
  lemma MarkerIsNotMade(n: string, t: Tag)
    requires Blank(t.gap) && n != []
    ensures HasPrefix(n + t.Printed(), BIOS) <==> HasPrefix(n, BIOS)
  {
    var w := n + t.Printed();
    if |n| < |BIOS| {
      var k := |n|;
      assert w[k] == if t.gap == [] then t.bracket.Opening() else t.gap[0];
      assert t.gap != [] ==> t.gap[0] in t.gap;
      assert k == 1 || k == 2 || k == 3 || k == 4 || k == 5;
      assert BIOS[k] != w[k];
    } else {
      assert w[..|BIOS|] == n[..|BIOS|];
    }
  }

  lemma TrimmedSplits(s: string)
    ensures SplitTags(Trim(s)) == SplitTags(s)
  {
    TrimTwice(s);
    SplitIgnoresEnds(Trim(s), s);
  }

  /** Behind a title, with or without the marker, a tag is split off and the base stays. */
  lemma TitledTagKeepsBase(name: string, t: Tag)
    requires Blank(t.gap) && t.bracket.Opening() !in t.text && Trim(name) != []
    ensures SplitTags(Work(name + t.Printed())).base == SplitTags(Work(name)).base
  {
    var n := Trim(name);
    var gap := TaggedIs(name, t);
    var tag := Tag(gap, t.bracket, t.text);
    MarkerIsNotMade(n, tag);
    if HasPrefix(n, BIOS) {
      assert (n + tag.Printed())[|BIOS|..] == n[|BIOS|..] + tag.Printed();
      CleanTagIsSplitOff(n[|BIOS|..], tag);
      TrimmedSplits(n[|BIOS|..] + tag.Printed());
      TrimmedSplits(n[|BIOS|..]);
    } else {
      CleanTagIsSplitOff(n, tag);
    }
  }

  /** The one odd name: nothing but a square tag that begins like the marker. */
  predicate LooksLikeAMarker(name: string, t: Tag) {
    Trim(name) == [] && t.bracket.Square? && HasPrefix(t.text, "BIOS]")
  }

  lemma BareTag(name: string, t: Tag)
    requires Blank(t.gap) && t.bracket.Opening() !in t.text && Trim(name) == []
    ensures SplitTags(Work(name + t.Printed())).base == [] <==> !LooksLikeAMarker(name, t)
  {
    var gap := TaggedIs(name, t);
    var w := Trim(name + t.Printed());
    var plain := Tag([], t.bracket, t.text);
    assert w == [] + plain.Printed() == [t.bracket.Opening()] + t.text + [t.bracket.Closing()];
    MarkerInTag(t);
    if HasPrefix(w, BIOS) && t.text != "BIOS" {
      assert w[|BIOS|..] == t.text[5..] + "]";
      assert forall c :: c in t.text[5..] ==> c in t.text;
      LooseClosing(t.text[5..]);
    } else if HasPrefix(w, BIOS) {
      assert w[|BIOS|..] == [];
      TitleSplits([]);
    } else {
      CleanTagIsSplitOff([], plain);
      TitleSplits([]);
    }
  }

  lemma MarkerInTag(t: Tag)
    ensures HasPrefix([t.bracket.Opening()] + t.text + [t.bracket.Closing()], BIOS)
            <==> t.bracket.Square? && (HasPrefix(t.text, "BIOS]") || t.text == "BIOS")
  {
    var w := [t.bracket.Opening()] + t.text + [t.bracket.Closing()];
    if t.bracket.Square? && HasPrefix(t.text, "BIOS]") {
      assert w[1..6] == t.text[..5] == "BIOS]";
      assert w[..6] == [w[0]] + w[1..6] == BIOS;
    }
    if HasPrefix(w, BIOS) {
      assert w[0] == '[' && w[1..6] == BIOS[1..6] == "BIOS]";
      if |t.text| >= 5 {
        assert t.text[..5] == w[1..6];
      } else {
        assert w[5] == ']';
        assert t.text == w[1..5];
      }
    }
  }

  lemma LooseClosing(s: string)
    requires '[' !in s
    ensures SplitTags(Trim(s + "]")).base != []
  {
    TrimmedSplits(s + "]");
    var v := s + "]";
    TrimLeftUpTo(s, "]");
    var t := Trim(v);
    assert t == TrimLeft(s) + "]";
    TrimLeftSolid(s, '[');
    LastIndexIsLast(t, '[');
    assert LookAt(v) == Bare(t);
  }

  lemma NormalizeKeyOfNothing(s: string)
    ensures NormalizeKey(s) == [] <==> TrimLeft(s) == []
  {
    TrimLeftKeeps(s);
  }

  lemma BaseIsTrimmed(s: string)
    ensures SplitTags(s).base == [] || TrimLeft(SplitTags(s).base) != []
    decreases |s|
  {
    match LookAt(s)
    case Group(rest, tag) => BaseIsTrimmed(rest);
    case Bare(base) =>
      TrimLeftKeeps(s);
      TrimRightKeeps(TrimLeft(s));
  }

  /**
   Appending a tag never changes the key that groups a game's releases, whatever the name, with one
   exception: a name that is nothing but a square tag beginning like the BIOS marker.
   */
  lemma AppendedTagKeepsTheKey(name: string, t: Tag)
    requires Blank(t.gap) && t.bracket.Opening() !in t.text
    ensures CanonicalKey(name + t.Printed()) == CanonicalKey(name) <==> !LooksLikeAMarker(name, t)
  {
    if Trim(name) != [] {
      TitledTagKeepsBase(name, t);
    } else {
      BareTag(name, t);
      TitleSplits([]);
      var base := SplitTags(Work(name + t.Printed())).base;
      BaseIsTrimmed(Work(name + t.Printed()));
      NormalizeKeyOfNothing(base);
      NormalizeKeyOfNothing([]);
      assert Work(name) == [];
    }
  }
}
