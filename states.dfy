/** The states a philosopher can be in, and their readable labels. */
module States {

  /** The five states, in declaration order. */
  datatype PhilosopherState = Thinking | Hungry | GotRightFork | GotLeftFork | Eating

  /** The enumeration's constants in declaration order (what `values()` gives). */
  function Values(): (r: seq<PhilosopherState>)
    ensures |r| == 5
    ensures r[0] == Thinking && r[1] == Hungry && r[2] == GotRightFork
    ensures r[3] == GotLeftFork && r[4] == Eating
    ensures forall i, j :: 0 <= i < j < |r| ==> r[i] != r[j]
  {
    [Thinking, Hungry, GotRightFork, GotLeftFork, Eating]
  }

  /** Every state is one of the constants. */
  lemma ValuesComplete(s: PhilosopherState)
    ensures s in Values()
  {
    match s
    case Thinking => assert Values()[0] == s;
    case Hungry => assert Values()[1] == s;
    case GotRightFork => assert Values()[2] == s;
    case GotLeftFork => assert Values()[3] == s;
    case Eating => assert Values()[4] == s;
  }

  /** The identifier of the constant, as `name()` returns it. */
  function ConstantName(s: PhilosopherState): string
  {
    match s
    case Thinking => "THINKING"
    case Hungry => "HUNGRY"
    case GotRightFork => "GOT_RIGHT_FORK"
    case GotLeftFork => "GOT_LEFT_FORK"
    case Eating => "EATING"
  }

  predicate IsUpper(c: char) { 'A' <= c <= 'Z' }

  /** Lower-cases one character; only ASCII letters occur in the constants. */
  function ToLowerChar(c: char): char
  {
    if IsUpper(c) then (c as int + 32) as char else c
  }

  /** Every occurrence of `from` replaced by `to`, as `String.replace(char, char)`. */
  function Replace(s: string, from: char, to: char): string
  {
    if s == [] then [] else [if s[0] == from then to else s[0]] + Replace(s[1..], from, to)
  }

  /** Replacing keeps the length and changes exactly the occurrences of `from`. */
  lemma {:induction false} ReplaceAt(s: string, from: char, to: char)
    ensures |Replace(s, from, to)| == |s|
    ensures forall i :: 0 <= i < |s| ==> Replace(s, from, to)[i] == (if s[i] == from then to else s[i])
  {
    if s != [] {
      ReplaceAt(s[1..], from, to);
    }
  }

  /** Every character lower-cased, as `String.toLowerCase()` on ASCII text. */
  function ToLowerCase(s: string): string
  {
    if s == [] then [] else [ToLowerChar(s[0])] + ToLowerCase(s[1..])
  }

  /** Lower-casing keeps the length and works character by character. */
  lemma {:induction false} ToLowerCaseAt(s: string)
    ensures |ToLowerCase(s)| == |s|
    ensures forall i :: 0 <= i < |s| ==> ToLowerCase(s)[i] == ToLowerChar(s[i])
  {
    if s != [] {
      ToLowerCaseAt(s[1..]);
    }
  }

  /** Underscores become spaces, then every letter is lower-cased. */
  function Readable(s: string): string
  {
    ToLowerCase(Replace(s, '_', ' '))
  }

  /** The readable name of a state. */
  function GetName(s: PhilosopherState): string
  {
    Readable(ConstantName(s))
  }

  /** Making any text readable keeps its length and leaves no underscore and no
      upper-case letter. */
  lemma ReadableShape(x: string)
    ensures |Readable(x)| == |x|
    ensures '_' !in Readable(x)
    ensures forall i :: 0 <= i < |x| ==> !IsUpper(Readable(x)[i])
  {
    var r := Readable(x);
    var p := Replace(x, '_', ' ');
    ReplaceAt(x, '_', ' ');
    ToLowerCaseAt(p);
    forall i | 0 <= i < |r|
      ensures r[i] != '_' && !IsUpper(r[i])
    {
      assert p[i] != '_';
      assert r[i] == ToLowerChar(p[i]);
    }
  }

  /** A label is as long as the constant's name, has no underscore and no upper-case letter. */
  lemma GetNameShape(s: PhilosopherState)
    ensures |GetName(s)| == |ConstantName(s)|
    ensures '_' !in GetName(s)
    ensures forall i :: 0 <= i < |GetName(s)| ==> !IsUpper(GetName(s)[i])
  {
    ReadableShape(ConstantName(s));
  }

  /** The five labels, written out. */
  function Label(s: PhilosopherState): string
  {
    match s
    case Thinking => "thinking"
    case Hungry => "hungry"
    case GotRightFork => "got right fork"
    case GotLeftFork => "got left fork"
    case Eating => "eating"
  }

  /** `Readable(x)` is `y` when `y` is `x` with each character mapped as `Readable` maps it. */
  lemma ReadableOf(x: string, y: string)
    requires |x| == |y|
    requires forall i :: 0 <= i < |x| ==> y[i] == ToLowerChar(if x[i] == '_' then ' ' else x[i])
    ensures Readable(x) == y
  {
    var p := Replace(x, '_', ' ');
    ReplaceAt(x, '_', ' ');
    ToLowerCaseAt(p);
  }

  lemma GetNameThinking()
    ensures GetName(Thinking) == "thinking"
  {
    ReadableOf("THINKING", "thinking");
  }

  lemma GetNameHungry()
    ensures GetName(Hungry) == "hungry"
  {
    ReadableOf("HUNGRY", "hungry");
  }

  lemma GetNameGotRightFork()
    ensures GetName(GotRightFork) == "got right fork"
  {
    ReadableOf("GOT_RIGHT_FORK", "got right fork");
  }

  lemma GetNameGotLeftFork()
    ensures GetName(GotLeftFork) == "got left fork"
  {
    ReadableOf("GOT_LEFT_FORK", "got left fork");
  }

  lemma GetNameEating()
    ensures GetName(Eating) == "eating"
  {
    ReadableOf("EATING", "eating");
  }

  /** `GetName` gives exactly the written-out labels. */
  lemma GetNameValues(s: PhilosopherState)
    ensures GetName(s) == Label(s)
  {
    match s
    case Thinking => GetNameThinking();
    case Hungry => GetNameHungry();
    case GotRightFork => GetNameGotRightFork();
    case GotLeftFork => GetNameGotLeftFork();
    case Eating => GetNameEating();
  }

  /** Distinct states have distinct labels. */
  lemma GetNameInjective(a: PhilosopherState, b: PhilosopherState)
    ensures GetName(a) == GetName(b) ==> a == b
  {
    GetNameValues(a);
    GetNameValues(b);
  }
}
