/**
 Tag extraction: turning an item's comma-separated tag string into a set of
 normalised tokens, and gathering the set of tags a user is interested in.
 */
module Tags {
  import opened Domain

  /** `str.isspace()` on one character: the characters `str.strip()` removes by default. */
  predicate IsSpace(c: char)
  {
    || c == ' '
    || '\t' <= c <= '\r'
    || '\U{1C}' <= c <= '\U{1F}'
    || c == '\U{85}' || c == '\U{A0}' || c == '\U{1680}'
    || '\U{2000}' <= c <= '\U{200A}'
    || c == '\U{2028}' || c == '\U{2029}' || c == '\U{202F}' || c == '\U{205F}' || c == '\U{3000}'
  }

  predicate AllSpace(s: string)
  {
    forall i :: 0 <= i < |s| ==> IsSpace(s[i])
  }

  /** No whitespace at either end. */
  predicate IsStripped(s: string)
  {
    |s| == 0 || (!IsSpace(s[0]) && !IsSpace(s[|s| - 1]))
  }

  /** The upper-case letters `str.lower()` changes within Latin-1: A-Z and À-Þ except ×. */
  predicate IsUpper(c: char)
  {
    'A' <= c <= 'Z' || ('\U{C0}' <= c <= '\U{DE}' && c != '\U{D7}')
  }

  predicate IsLowered(s: string)
  {
    forall i :: 0 <= i < |s| ==> !IsUpper(s[i])
  }

  function LowerChar(c: char): (d: char)
    ensures !IsUpper(d)
    ensures IsSpace(d) <==> IsSpace(c)
    ensures d == ',' <==> c == ','
    ensures !IsUpper(c) ==> d == c
  {
    if IsUpper(c) then (c as int + 32) as char else c
  }

  /** `s.lower()`. */
  function Lower(s: string): (r: string)
    ensures |r| == |s| && IsLowered(r)
  {
    seq(|s|, i requires 0 <= i < |s| => LowerChar(s[i]))
  }

  function TrimStart(s: string): (r: string)
    ensures |r| <= |s| && r == s[|s| - |r|..]
    ensures AllSpace(s[..|s| - |r|])
    ensures |r| == 0 || !IsSpace(r[0])
  {
    if |s| > 0 && IsSpace(s[0]) then TrimStart(s[1..]) else s
  }

  function TrimEnd(s: string): (r: string)
    ensures |r| <= |s| && r == s[..|r|]
    ensures AllSpace(s[|r|..])
    ensures |r| == 0 || !IsSpace(r[|r| - 1])
  {
    if |s| > 0 && IsSpace(s[|s| - 1]) then TrimEnd(s[..|s| - 1]) else s
  }

  /** `s.strip()`: the longest middle part of `s` with only whitespace around it. */
  function Strip(s: string): (r: string)
    ensures IsStripped(r)
  {
    TrimEnd(TrimStart(s))
  }

  /** What `Strip` removes is whitespace on either side of what it keeps. */
  lemma StripIsMiddle(s: string)
    ensures exists i, j :: 0 <= i <= j <= |s| && Strip(s) == s[i..j] && AllSpace(s[..i]) && AllSpace(s[j..])
  {
    var t := TrimStart(s);
    var r := TrimEnd(t);
    var i := |s| - |t|;
    assert r == s[i..i + |r|] && s[i + |r|..] == t[|r|..];
  }

  /** `s.split(sep)`: the pieces between separators, empty ones included. */
  function Split(s: string, sep: char): (pieces: seq<string>)
    ensures |pieces| >= 1
    ensures forall k :: 0 <= k < |pieces| ==> sep !in pieces[k]
  {
    if |s| == 0 then [""]
    else
      var rest := Split(s[1..], sep);
      if s[0] == sep then [""] + rest else [[s[0]] + rest[0]] + rest[1..]
  }

  /** `sep.join(pieces)`. */
  function Join(pieces: seq<string>, sep: char): string
  {
    if |pieces| == 0 then ""
    else if |pieces| == 1 then pieces[0]
    else pieces[0] + [sep] + Join(pieces[1..], sep)
  }

  /** Splitting loses nothing: joining the pieces back gives the string. */
  lemma {:induction false} JoinSplit(s: string, sep: char)
    ensures Join(Split(s, sep), sep) == s
  {
    if |s| > 0 {
      var rest := Split(s[1..], sep);
      JoinSplit(s[1..], sep);
      if s[0] != sep {
        if |rest| > 1 {
          assert ([[s[0]] + rest[0]] + rest[1..])[1..] == rest[1..];
          assert Join(rest, sep) == rest[0] + [sep] + Join(rest[1..], sep);
        }
      } else {
        assert ([""] + rest)[1..] == rest;
      }
    }
  }

  /** Joining separator-free pieces and splitting again gives the pieces back. */
  lemma {:induction false} SplitJoin(pieces: seq<string>, sep: char)
    requires |pieces| >= 1
    requires forall k :: 0 <= k < |pieces| ==> sep !in pieces[k]
    ensures Split(Join(pieces, sep), sep) == pieces
  {
    if |pieces| == 1 {
      SplitNoSeparator(pieces[0], sep);
    } else {
      SplitJoin(pieces[1..], sep);
      SplitPrefix(pieces[0], Join(pieces[1..], sep), sep);
      assert [pieces[0]] + pieces[1..] == pieces;
    }
  }

  lemma {:induction false} SplitNoSeparator(s: string, sep: char)
    requires sep !in s
    ensures Split(s, sep) == [s]
  {
    if |s| > 0 {
      SplitNoSeparator(s[1..], sep);
      assert [s[0]] + s[1..] == s;
    }
  }

  lemma {:induction false} SplitPrefix(p: string, t: string, sep: char)
    requires sep !in p
    ensures Split(p + [sep] + t, sep) == [p] + Split(t, sep)
  {
    if |p| == 0 {
      assert p + [sep] + t == [sep] + t;
      assert ([sep] + t)[1..] == t;
    } else {
      assert (p + [sep] + t)[1..] == p[1..] + [sep] + t;
      SplitPrefix(p[1..], t, sep);
      assert [p[0]] + p[1..] == p;
    }
  }

  /** The token a piece of a tag string stands for: none when the piece is blank. */
  function Token(piece: string): Option<string>
  {
    var trimmed := Strip(piece);
    if |trimmed| == 0 then None else Some(Lower(trimmed))
  }

  /** The set of tokens of the comma-free pieces of a tag string. */
  function Tokens(pieces: seq<string>): (tokens: set<string>)
    requires forall k :: 0 <= k < |pieces| ==> ',' !in pieces[k]
    ensures forall t :: t in tokens ==> NormalForm(t)
  {
    assert forall t :: t in FilterMap(pieces, Token) ==> NormalForm(t) by {
      forall t | t in FilterMap(pieces, Token) ensures NormalForm(t) {
        FilterMapMembers(pieces, Token, t);
        var k :| 0 <= k < |pieces| && Token(pieces[k]) == Some(t);
        StripThenLower(pieces[k]);
      }
    }
    set t | t in FilterMap(pieces, Token)
  }

  /**
   `_tokenize_tags`: nothing for a missing or empty string; otherwise one
   lower-cased, trimmed token per comma-separated piece that is not blank.
   */
  function Tokenize(tags: Option<string>): (tokens: set<string>)
    ensures tags == None || tags == Some("") ==> tokens == {}
    ensures forall t :: t in tokens ==> NormalForm(t)
  {
    match tags
    case None => {}
    case Some(s) => if |s| == 0 then {} else Tokens(Split(s, ','))
  }

  /** A token of a non-empty tag string is exactly the token of one of its comma-separated pieces. */
  lemma TokenizeMembers(s: string, t: string)
    requires |s| > 0
    ensures t in Tokenize(Some(s)) ==> exists k :: 0 <= k < |Split(s, ',')| && Token(Split(s, ',')[k]) == Some(t)
    ensures (exists k :: 0 <= k < |Split(s, ',')| && Token(Split(s, ',')[k]) == Some(t)) ==> t in Tokenize(Some(s))
  {
    var pieces := Split(s, ',');
    assert Tokenize(Some(s)) == Tokens(pieces);
    FilterMapMembers(pieces, Token, t);
    if t in FilterMap(pieces, Token) {
      var k :| 0 <= k < |pieces| && Token(pieces[k]) == Some(t);
    }
  }

  /** A list has at least as many entries as the set of its entries. */
  lemma {:induction false} SetOfSeqSize<T>(xs: seq<T>)
    ensures |set x | x in xs| <= |xs|
  {
    if |xs| > 0 {
      var n := |xs| - 1;
      SetOfSeqSize(xs[..n]);
      assert (set x | x in xs) == (set x | x in xs[..n]) + {xs[n]} by {
        assert xs == xs[..n] + [xs[n]];
      }
    }
  }

  /** A tag string has at most as many tokens as it has comma-separated pieces. */
  lemma TokenCount(s: string)
    requires |s| > 0
    ensures |Tokenize(Some(s))| <= |Split(s, ',')|
  {
    SetOfSeqSize(FilterMap(Split(s, ','), Token));
  }

  /** A token as `Tokenize` produces it. */
  predicate NormalForm(t: string)
  {
    |t| > 0 && IsStripped(t) && IsLowered(t) && ',' !in t
  }

  lemma StripThenLower(p: string)
    requires ',' !in p
    ensures Token(p).Some? ==> NormalForm(Token(p).value)
  {
    var s := Strip(p);
    if |s| > 0 {
      assert ',' !in s by { StripKeepsOut(p, ','); }
      LowerKeepsNormal(s);
    }
  }

  lemma StripKeepsOut(p: string, c: char)
    requires c !in p
    ensures c !in Strip(p)
  {
    var s := Strip(p);
    StripIsMiddle(p);
    var i, j :| 0 <= i <= j <= |p| && s == p[i..j];
    forall k | 0 <= k < |s| ensures s[k] != c {
      assert s[k] == p[i + k];
    }
  }

  lemma LowerKeepsNormal(s: string)
    requires |s| > 0 && IsStripped(s) && ',' !in s
    ensures NormalForm(Lower(s))
  {
    var r := Lower(s);
    assert r[0] == LowerChar(s[0]);
    assert r[|r| - 1] == LowerChar(s[|s| - 1]);
    forall k | 0 <= k < |r| ensures r[k] != ',' {
      assert r[k] == LowerChar(s[k]);
    }
  }

  lemma {:induction false} NormalFormFixed(t: string)
    requires NormalForm(t)
    ensures Strip(t) == t && Lower(t) == t
  {
    assert TrimStart(t) == t;
    assert TrimEnd(t) == t;
    assert Lower(t) == t;
  }

  /** Tokenizing a comma-joined list of normalised tokens gives back exactly those tokens. */
  lemma TokenizeJoin(tokens: seq<string>)
    requires forall k :: 0 <= k < |tokens| ==> NormalForm(tokens[k])
    ensures Tokenize(Some(Join(tokens, ','))) == set t | t in tokens
  {
    if |tokens| > 0 {
      SplitJoin(tokens, ',');
      assert |Join(tokens, ',')| > 0;
      forall t ensures t in FilterMap(tokens, Token) <==> t in tokens {
        FilterMapMembers(tokens, Token, t);
        forall k | 0 <= k < |tokens| ensures Token(tokens[k]) == Some(tokens[k]) {
          NormalFormFixed(tokens[k]);
        }
      }
    }
  }

  /** The union of a sequence of sets. */
  function UnionAll<T>(sets: seq<set<T>>): set<T>
  {
    if |sets| == 0 then {} else UnionAll(sets[..|sets| - 1]) + sets[|sets| - 1]
  }

  lemma {:induction false} UnionAllMembers<T>(sets: seq<set<T>>, t: T)
    ensures t in UnionAll(sets) <==> exists k :: 0 <= k < |sets| && t in sets[k]
  {
    if |sets| > 0 {
      var n := |sets| - 1;
      var prefix := sets[..n];
      UnionAllMembers(prefix, t);
      assert forall k :: 0 <= k < n ==> prefix[k] == sets[k];
    }
  }

  /** The token set of each rated item, rating by rating. */
  function ItemTagSets(ratings: seq<UserRating>): (sets: seq<set<string>>)
    ensures |sets| == |ratings|
  {
    seq(|ratings|, k requires 0 <= k < |ratings| => Tokenize(ratings[k].itemTags))
  }

  /** The user's aggregated tag set: explicit preferences, as stored, and the tokens of every rated item. */
  function UserTagSet(user: User): set<string>
  {
    (set p | p in user.preferences) + UnionAll(ItemTagSets(user.ratings))
  }

  /** A tag of the user is a preference tag as stored or a token of some rated item's tag string. */
  lemma UserTagSetMembers(user: User, t: string)
    ensures t in UserTagSet(user) <==>
      t in user.preferences || exists k :: 0 <= k < |user.ratings| && t in Tokenize(user.ratings[k].itemTags)
  {
    UnionAllMembers(ItemTagSets(user.ratings), t);
    assert forall k :: 0 <= k < |user.ratings| ==> ItemTagSets(user.ratings)[k] == Tokenize(user.ratings[k].itemTags);
  }

  /**
   `_collect_user_tags`: the preference tags are taken as stored (not
   lower-cased or trimmed); only the rated items' tag strings are tokenized.
   */
  method CollectUserTags(user: User) returns (tags: set<string>)
    ensures tags == UserTagSet(user)
    ensures forall t :: t in tags <==>
      t in user.preferences || exists k :: 0 <= k < |user.ratings| && t in Tokenize(user.ratings[k].itemTags)
  {
    var explicitTags := set p | p in user.preferences;
    var ratedTags: set<string> := {};
    var k := 0;
    while k < |user.ratings|
      invariant 0 <= k <= |user.ratings|
      invariant ratedTags == UnionAll(ItemTagSets(user.ratings)[..k])
    {
      assert ItemTagSets(user.ratings)[..k + 1][..k] == ItemTagSets(user.ratings)[..k];
      var itemTags := Tokenize(user.ratings[k].itemTags);
      ratedTags := ratedTags + itemTags;
      k := k + 1;
    }
    assert ItemTagSets(user.ratings)[..k] == ItemTagSets(user.ratings);
    tags := explicitTags + ratedTags;
    forall t ensures t in tags <==>
      t in user.preferences || exists k :: 0 <= k < |user.ratings| && t in Tokenize(user.ratings[k].itemTags)
    {
      UserTagSetMembers(user, t);
    }
  }

  /**
   A preference tag is kept as stored. When it is not in normal form (it has an
   upper-case letter, surrounding blanks or a comma), it still belongs to the
   user's tag set but can never equal a token of any item's tag string.
   */
  lemma RawPreferenceNeverMatches(user: User, p: string, tags: Option<string>)
    requires p in user.preferences && !NormalForm(p)
    ensures p in UserTagSet(user)
    ensures p !in Tokenize(tags)
  {
  }

  /** The tag set of a user with only the preference " Fiction" is exactly {" Fiction"}. */
  lemma PreferenceTagsAreRaw()
    ensures UserTagSet(User(1, [" Fiction"], [])) == {" Fiction"}
    ensures !NormalForm(" Fiction")
  {
    var u := User(1, [" Fiction"], []);
    assert IsSpace(" Fiction"[0]);
    assert (set p | p in u.preferences) == {" Fiction"};
    assert ItemTagSets(u.ratings) == [];
  }
}
