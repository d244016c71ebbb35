/**
 The colour token resolver of the contrast check (scripts/check_dashboard_contrast.py:15-67): aliases and
 two-token mixes over a token table that may be cyclic.
 */
module ColorTokens {
  import opened Options

  type Key = string

  datatype Color = Color(r: real, g: real, b: real, a: real)

  /** A token value as its pattern reads it; a leaf that is no colour holds nothing. */
  datatype Token = Alias(target: Key) | Mix(first: Key, percent: real, second: Key) | Leaf(color: Option<Color>)

  type Table = map<Key, Token>

  datatype Resolution = Resolved(color: Color) | Circular(key: Key) | Missing(key: Key) | Malformed(key: Key)

  /** The average of two channel values with weights `p` and `q`. */
  function Average(x: real, p: real, y: real, q: real): real
    requires p + q != 0.0
  {
    (x * p + y * q) / (p + q)
  }

  /** Premultiplied mix in sRGB. */
  function Mixed(first: Color, second: Color, weight: real): Color {
    var p, q := first.a * weight, second.a * (1.0 - weight);
    if p + q == 0.0 then Color(0.0, 0.0, 0.0, 0.0)
    else
      Color(Average(first.r, p, second.r, q), Average(first.g, p, second.g, q), Average(first.b, p, second.b, q), p + q)
  }

  lemma FewerLeft(tokens: Table, key: Key, seen: set<Key>)
    requires key in tokens && key !in seen
    ensures |tokens.Keys - (seen + {key})| < |tokens.Keys - seen|
  {
    assert tokens.Keys - (seen + {key}) == (tokens.Keys - seen) - {key};
  }

  /** Terminates on every table, cyclic or not: the keys not yet seen become fewer. */
  function TokenColor(tokens: Table, key: Key, seen: set<Key>): Resolution
    decreases |tokens.Keys - seen|
  {
    if key in seen then Circular(key)
    else if key !in tokens then Missing(key)
    else
      FewerLeft(tokens, key, seen);
      match tokens[key]
      case Alias(target) => TokenColor(tokens, target, seen + {key})
      case Mix(first, percent, second) =>
        var one := TokenColor(tokens, first, seen + {key});
        if !one.Resolved? then one
        else
          var two := TokenColor(tokens, second, seen + {key});
          if !two.Resolved? then two else Resolved(Mixed(one.color, two.color, percent / 100.0))
      case Leaf(color) => if color.Some? then Resolved(color.value) else Malformed(key)
  }

  // ---- Paths through the table --------------------------------------------------------------

  function References(tokens: Table, key: Key): set<Key> {
    if key !in tokens then {}
    else
      match tokens[key]
      case Alias(target) => {target}
      case Mix(first, _, second) => {first, second}
      case Leaf(_) => {}
  }

  /** A chain of references that starts at `key`. */
  ghost predicate IsPath(tokens: Table, key: Key, path: seq<Key>) {
    && path != [] && path[0] == key
    && forall i :: 0 < i < |path| ==> path[i] in References(tokens, path[i - 1])
  }

  ghost predicate NoRepeats(path: seq<Key>) {
    forall i, j :: 0 <= i < j < |path| ==> path[i] != path[j]
  }

  ghost predicate WellFormedKey(tokens: Table, key: Key) {
    key in tokens && (tokens[key].Leaf? ==> tokens[key].color.Some?)
  }

  lemma PathTail(tokens: Table, key: Key, path: seq<Key>)
    requires IsPath(tokens, key, path) && |path| > 1
    ensures path[1] in References(tokens, key) && IsPath(tokens, path[1], path[1..])
  {
    forall i | 0 < i < |path[1..]| ensures path[1..][i] in References(tokens, path[1..][i - 1]) {
      assert path[i + 1] in References(tokens, path[i]);
    }
  }

  /** Where resolution succeeds, no path meets a seen key, a repeated key or an ill-formed one. */
  lemma {:induction false} SuccessVisitsCleanPaths(tokens: Table, key: Key, seen: set<Key>, path: seq<Key>)
    requires TokenColor(tokens, key, seen).Resolved? && IsPath(tokens, key, path)
    ensures NoRepeats(path) && forall i :: 0 <= i < |path| ==> path[i] !in seen && WellFormedKey(tokens, path[i])
    decreases |path|
  {
    if |path| > 1 {
      PathTail(tokens, key, path);
      var next := path[1];
      assert TokenColor(tokens, next, seen + {key}).Resolved?;
      SuccessVisitsCleanPaths(tokens, next, seen + {key}, path[1..]);
      forall i | 0 <= i < |path|
        ensures path[i] !in seen && WellFormedKey(tokens, path[i]) && (i > 0 ==> path[i] != key)
      {
        if i > 0 { assert path[i] == path[1..][i - 1]; }
      }
      forall i, j | 0 <= i < j < |path| ensures path[i] != path[j] {
        if i > 0 { assert path[1..][i - 1] != path[1..][j - 1]; }
      }
    }
  }

  /** What stops a resolution: a path that ends in a key already on it, already seen, or ill-formed. */
  ghost predicate Obstructed(tokens: Table, seen: set<Key>, path: seq<Key>)
    requires path != []
  {
    var last := path[|path| - 1];
    last in seen || !WellFormedKey(tokens, last) || exists i :: 0 <= i < |path| - 1 && path[i] == last
  }

  /** The error names the key at the end of the path, and what is wrong with it there. */
  ghost predicate Blames(tokens: Table, seen: set<Key>, path: seq<Key>, r: Resolution)
    requires path != []
  {
    var last := path[|path| - 1];
    match r
    case Resolved(_) => false
    case Circular(key) => key == last && (last in seen || exists i :: 0 <= i < |path| - 1 && path[i] == last)
    case Missing(key) => key == last && last !in tokens
    case Malformed(key) => key == last && last in tokens && tokens[last] == Leaf(None)
  }

  lemma {:induction false} FailureHasObstructedPath(tokens: Table, key: Key, seen: set<Key>) returns (path: seq<Key>)
    requires !TokenColor(tokens, key, seen).Resolved?
    ensures IsPath(tokens, key, path) && Obstructed(tokens, seen, path)
    ensures Blames(tokens, seen, path, TokenColor(tokens, key, seen))
    decreases |tokens.Keys - seen|
  {
    path := [key];
    if key in seen || !WellFormedKey(tokens, key) {
      return;
    }
    FewerLeft(tokens, key, seen);
    var next := match tokens[key]
      case Alias(target) => target
      case Mix(first, _, second) => if TokenColor(tokens, first, seen + {key}).Resolved? then second else first
      case Leaf(_) => key;
    var tail := FailureHasObstructedPath(tokens, next, seen + {key});
    path := [key] + tail;
    var last := tail[|tail| - 1];
    forall i | 0 < i < |path| ensures path[i] in References(tokens, path[i - 1]) {
      if i > 1 { assert tail[i - 1] in References(tokens, tail[i - 2]); }
    }
    if last == key {
      assert path[0] == last;
    } else if exists i :: 0 <= i < |tail| - 1 && tail[i] == last {
      var i :| 0 <= i < |tail| - 1 && tail[i] == last;
      assert path[i + 1] == last;
    }
  }

  /**
   A token resolves exactly when every chain of references from it is free of repeated keys and of
   missing or ill-formed ones. Shared references that form no cycle are fine.
   */
  lemma ResolvesIffPathsAreClean(tokens: Table, key: Key)
    ensures TokenColor(tokens, key, {}).Resolved? <==>
            forall path :: IsPath(tokens, key, path) ==>
                             NoRepeats(path) && forall i :: 0 <= i < |path| ==> WellFormedKey(tokens, path[i])
  {
    if TokenColor(tokens, key, {}).Resolved? {
      forall path | IsPath(tokens, key, path)
        ensures NoRepeats(path) && forall i :: 0 <= i < |path| ==> WellFormedKey(tokens, path[i])
      {
        SuccessVisitsCleanPaths(tokens, key, {}, path);
      }
    } else {
      var path := FailureHasObstructedPath(tokens, key, {});
      var last := path[|path| - 1];
      assert !(NoRepeats(path) && forall i :: 0 <= i < |path| ==> WellFormedKey(tokens, path[i]));
    }
  }

  /** An error names a key that a chain of references ends in: one that repeats, is missing, or is no colour. */
  lemma ErrorsNameTheirCause(tokens: Table, key: Key) returns (path: seq<Key>)
    requires !TokenColor(tokens, key, {}).Resolved?
    ensures IsPath(tokens, key, path) && Blames(tokens, {}, path, TokenColor(tokens, key, {}))
  {
    path := FailureHasObstructedPath(tokens, key, {});
  }

  /** Every leaf is a colour and every reference is present. */
  ghost predicate Complete(tokens: Table) {
    && (forall k :: k in tokens ==> WellFormedKey(tokens, k))
    && (forall k, r :: r in References(tokens, k) ==> r in tokens)
  }

  /** With every reference present and every leaf a colour, only a reachable cycle can stop it. */
  lemma ResolvesIffNoCycle(tokens: Table, key: Key)
    requires key in tokens && Complete(tokens)
    ensures TokenColor(tokens, key, {}).Resolved? <==> forall path :: IsPath(tokens, key, path) ==> NoRepeats(path)
    ensures !TokenColor(tokens, key, {}).Resolved? ==> TokenColor(tokens, key, {}).Circular?
  {
    ResolvesIffPathsAreClean(tokens, key);
    forall path, i | IsPath(tokens, key, path) && 0 <= i < |path| ensures WellFormedKey(tokens, path[i]) {
      PathStaysInTable(tokens, key, path, i);
    }
    OnlyCyclesFail(tokens, key, {});
  }

  lemma {:induction false} PathStaysInTable(tokens: Table, key: Key, path: seq<Key>, i: nat)
    requires key in tokens && Complete(tokens)
    requires IsPath(tokens, key, path) && i < |path|
    ensures path[i] in tokens
    decreases i
  {
    hide References;
    if i > 0 {
      PathStaysInTable(tokens, key, path, i - 1);
      assert path[i] in References(tokens, path[i - 1]);
    }
  }

  lemma {:induction false} OnlyCyclesFail(tokens: Table, key: Key, seen: set<Key>)
    requires key in tokens && Complete(tokens)
    ensures var r := TokenColor(tokens, key, seen); r.Resolved? || r.Circular?
    decreases |tokens.Keys - seen|
  {
    if key !in seen {
      FewerLeft(tokens, key, seen);
      assert forall r :: r in References(tokens, key) ==> r in tokens;
      match tokens[key]
      case Alias(target) =>
        assert target in References(tokens, key);
        OnlyCyclesFail(tokens, target, seen + {key});
      case Mix(first, _, second) =>
        assert first in References(tokens, key) && second in References(tokens, key);
        OnlyCyclesFail(tokens, first, seen + {key});
        OnlyCyclesFail(tokens, second, seen + {key});
      case Leaf(_) =>
    }
  }

  /** The keys seen on the way can reject a token but never change its colour. */
  lemma {:induction false} SeenNeverChangesColor(tokens: Table, key: Key, seen: set<Key>, fewer: set<Key>)
    requires TokenColor(tokens, key, seen).Resolved? && fewer <= seen
    ensures TokenColor(tokens, key, fewer) == TokenColor(tokens, key, seen)
    decreases |tokens.Keys - seen|
  {
    FewerLeft(tokens, key, seen);
    match tokens[key]
    case Alias(target) => SeenNeverChangesColor(tokens, target, seen + {key}, fewer + {key});
    case Mix(first, _, second) =>
      SeenNeverChangesColor(tokens, first, seen + {key}, fewer + {key});
      SeenNeverChangesColor(tokens, second, seen + {key}, fewer + {key});
    case Leaf(_) =>
  }

  /** A resolved alias has its target's own colour, and a resolved mix is the mix of its parts' own colours. */
  lemma ResolvesToItsParts(tokens: Table, key: Key)
    requires TokenColor(tokens, key, {}).Resolved?
    ensures var color := TokenColor(tokens, key, {}).color;
            match tokens[key]
            case Alias(target) => TokenColor(tokens, target, {}) == Resolved(color)
            case Mix(first, percent, second) =>
              var one, two := TokenColor(tokens, first, {}), TokenColor(tokens, second, {});
              one.Resolved? && two.Resolved? && color == Mixed(one.color, two.color, percent / 100.0)
            case Leaf(leaf) => leaf == Some(color)
  {
    assert {} + {key} == {key};
    match tokens[key]
    case Alias(target) => SeenNeverChangesColor(tokens, target, {key}, {});
    case Mix(first, _, second) =>
      SeenNeverChangesColor(tokens, first, {key}, {});
      SeenNeverChangesColor(tokens, second, {key}, {});
    case Leaf(_) =>
  }

  /**
   What a mix is, channel by channel: alphas are averaged by weight, and so are the channels multiplied by
   their alphas. A mix without alpha is black.
   */
  lemma MixPremultiplies(first: Color, second: Color, weight: real)
    ensures var mix := Mixed(first, second, weight);
            && mix.a == first.a * weight + second.a * (1.0 - weight)
            && (mix.a != 0.0 ==>
                  && mix.r * mix.a == first.r * first.a * weight + second.r * second.a * (1.0 - weight)
                  && mix.g * mix.a == first.g * first.a * weight + second.g * second.a * (1.0 - weight)
                  && mix.b * mix.a == first.b * first.a * weight + second.b * second.a * (1.0 - weight))
            && (mix.a == 0.0 ==> mix == Color(0.0, 0.0, 0.0, 0.0))
  {
    var p, q := first.a * weight, second.a * (1.0 - weight);
    if p + q != 0.0 {
      AverageTimesTotal(first.r, p, second.r, q);
      AverageTimesTotal(first.g, p, second.g, q);
      AverageTimesTotal(first.b, p, second.b, q);
      Regroup(first, weight);
      Regroup(second, 1.0 - weight);
    }
  }

  lemma AverageTimesTotal(x: real, p: real, y: real, q: real)
    requires p + q != 0.0
    ensures Average(x, p, y, q) * (p + q) == x * p + y * q
  {
  }

  lemma Regroup(c: Color, weight: real)
    ensures c.r * (c.a * weight) == c.r * c.a * weight
    ensures c.g * (c.a * weight) == c.g * c.a * weight
    ensures c.b * (c.a * weight) == c.b * c.a * weight
  {
  }

  // ---- Ranges -------------------------------------------------------------------------------

  predicate Channel(x: real) { 0.0 <= x <= 255.0 }

  predicate InRange(c: Color) { Channel(c.r) && Channel(c.g) && Channel(c.b) && 0.0 <= c.a <= 1.0 }

  lemma Product(x: real, y: real)
    requires x >= 0.0 && y >= 0.0
    ensures x * y >= 0.0
  {
  }

  lemma QuotientInRange(sum: real, total: real)
    requires total > 0.0 && 0.0 <= sum <= 255.0 * total
    ensures Channel(sum / total)
  {
    var mean := sum / total;
    assert mean * total == sum;
  }

  lemma WeightedAverage(x: real, p: real, y: real, q: real)
    requires Channel(x) && Channel(y) && p >= 0.0 && q >= 0.0 && p + q > 0.0
    ensures Channel(Average(x, p, y, q))
  {
    var total, sum := p + q, x * p + y * q;
    Product(x, p);
    Product(y, q);
    Product(255.0 - x, p);
    Product(255.0 - y, q);
    assert 255.0 * total - sum == (255.0 - x) * p + (255.0 - y) * q;
    QuotientInRange(sum, total);
  }

  lemma MixedAlpha(a: real, b: real, weight: real)
    requires 0.0 <= a <= 1.0 && 0.0 <= b <= 1.0 && 0.0 <= weight <= 1.0
    ensures 0.0 <= a * weight && 0.0 <= b * (1.0 - weight) && a * weight + b * (1.0 - weight) <= 1.0
  {
    Product(a, weight);
    Product(b, 1.0 - weight);
    Product(1.0 - a, weight);
    Product(1.0 - b, 1.0 - weight);
    assert (1.0 - a) * weight == weight - a * weight;
    assert (1.0 - b) * (1.0 - weight) == 1.0 - weight - b * (1.0 - weight);
  }

  lemma MixStaysInRange(first: Color, second: Color, weight: real)
    requires InRange(first) && InRange(second) && 0.0 <= weight <= 1.0
    ensures InRange(Mixed(first, second, weight))
  {
    var p, q := first.a * weight, second.a * (1.0 - weight);
    MixedAlpha(first.a, second.a, weight);
    if p + q != 0.0 {
      WeightedAverage(first.r, p, second.r, q);
      WeightedAverage(first.g, p, second.g, q);
      WeightedAverage(first.b, p, second.b, q);
      assert Mixed(first, second, weight) ==
             Color(Average(first.r, p, second.r, q), Average(first.g, p, second.g, q),
                   Average(first.b, p, second.b, q), p + q);
    }
  }

  /** A weight keeps every mix of colours in range exactly when it is between 0 and 100 per cent. */
  lemma WeightIsSafeIffFraction(weight: real)
    ensures (forall first, second :: InRange(first) && InRange(second) ==> InRange(Mixed(first, second, weight)))
            <==> 0.0 <= weight <= 1.0
  {
    if 0.0 <= weight <= 1.0 {
      forall first, second | InRange(first) && InRange(second) ensures InRange(Mixed(first, second, weight)) {
        MixStaysInRange(first, second, weight);
      }
    } else {
      var solid, clear := Color(255.0, 0.0, 0.0, 1.0), Color(0.0, 0.0, 0.0, 0.0);
      assert Mixed(solid, clear, weight).a == weight;
      assert InRange(solid) && InRange(clear) && !InRange(Mixed(solid, clear, weight));
    }
  }

  /** With leaves in range and every mix weight at most 100 per cent, every resolved colour is in range. */
  lemma {:induction false} ResolvedInRange(tokens: Table, key: Key, seen: set<Key>)
    requires forall k :: k in tokens && tokens[k].Leaf? && tokens[k].color.Some? ==> InRange(tokens[k].color.value)
    requires forall k :: k in tokens && tokens[k].Mix? ==> 0.0 <= tokens[k].percent <= 100.0
    ensures TokenColor(tokens, key, seen).Resolved? ==> InRange(TokenColor(tokens, key, seen).color)
    decreases |tokens.Keys - seen|
  {
    if key in tokens && key !in seen {
      FewerLeft(tokens, key, seen);
      match tokens[key]
      case Alias(target) => ResolvedInRange(tokens, target, seen + {key});
      case Mix(first, percent, second) =>
        ResolvedInRange(tokens, first, seen + {key});
        ResolvedInRange(tokens, second, seen + {key});
        var one, two := TokenColor(tokens, first, seen + {key}), TokenColor(tokens, second, seen + {key});
        if one.Resolved? && two.Resolved? {
          MixStaysInRange(one.color, two.color, percent / 100.0);
        }
      case Leaf(_) =>
    }
  }

  /** A translucent colour over a background, and the contrast of two luminances. */
  function Composite(foreground: Color, background: Color): Color {
    Color(foreground.r * foreground.a + background.r * (1.0 - foreground.a),
          foreground.g * foreground.a + background.g * (1.0 - foreground.a),
          foreground.b * foreground.a + background.b * (1.0 - foreground.a), 1.0)
  }

  /** Compositing is mixing with an opaque background by the foreground's own alpha. */
  lemma CompositeIsMix(foreground: Color, background: Color)
    requires InRange(foreground) && InRange(background) && background.a == 1.0
    ensures Composite(foreground, background) == Mixed(foreground.(a := 1.0), background, foreground.a)
    ensures InRange(Composite(foreground, background))
  {
    MixStaysInRange(foreground.(a := 1.0), background, foreground.a);
  }

  /** Relative luminance, for any transfer curve `linear` of one channel. */
  function Luminance(c: Color, linear: real -> real): real {
    0.2126 * linear(c.r / 255.0) + 0.7152 * linear(c.g / 255.0) + 0.0722 * linear(c.b / 255.0)
  }

  function Contrast(a: real, b: real): real
    requires a >= 0.0 && b >= 0.0
  {
    if a <= b then (b + 0.05) / (a + 0.05) else (a + 0.05) / (b + 0.05)
  }

  /**
   What luminance and contrast are: each primary counts with its weight in linear light and the others add to it;
   contrast is the factor between the two luminances, each raised by 0.05.
   */
  lemma LuminanceAndContrast(c: Color, linear: real -> real, other: real)
    requires linear(0.0) == 0.0 && Luminance(c, linear) >= 0.0 && other >= 0.0
    ensures Luminance(Color(c.r, 0.0, 0.0, c.a), linear) == 0.2126 * linear(c.r / 255.0)
    ensures Luminance(Color(0.0, c.g, 0.0, c.a), linear) == 0.7152 * linear(c.g / 255.0)
    ensures Luminance(Color(0.0, 0.0, c.b, c.a), linear) == 0.0722 * linear(c.b / 255.0)
    ensures Luminance(c, linear) == Luminance(Color(c.r, 0.0, 0.0, c.a), linear)
                                    + Luminance(Color(0.0, c.g, 0.0, c.a), linear)
                                    + Luminance(Color(0.0, 0.0, c.b, c.a), linear)
    ensures var a := Luminance(c, linear);
            && (a >= other ==> a + 0.05 == Contrast(a, other) * (other + 0.05))
            && (a <= other ==> other + 0.05 == Contrast(a, other) * (a + 0.05))
  {
  }

  /** Contrast is symmetric and lies between 1 and 21, for any transfer curve of [0, 1] into itself. */
  lemma ContrastBounds(first: Color, second: Color, linear: real -> real)
    requires InRange(first) && InRange(second) && forall x :: 0.0 <= x <= 1.0 ==> 0.0 <= linear(x) <= 1.0
    ensures 0.0 <= Luminance(first, linear) <= 1.0 && 0.0 <= Luminance(second, linear) <= 1.0
    ensures var a, b := Luminance(first, linear), Luminance(second, linear);
            Contrast(a, b) == Contrast(b, a) && 1.0 <= Contrast(a, b) <= 21.0
  {
    LuminanceBounds(first, linear);
    LuminanceBounds(second, linear);
    var a, b := Luminance(first, linear), Luminance(second, linear);
    if a <= b { RatioBounds(b + 0.05, a + 0.05); } else { RatioBounds(a + 0.05, b + 0.05); }
  }

  lemma RatioBounds(high: real, low: real)
    requires 0.05 <= low <= high <= 1.05
    ensures 1.0 <= high / low <= 21.0
  {
    var ratio := high / low;
    assert ratio * low == high;
  }

  lemma LuminanceBounds(c: Color, linear: real -> real)
    requires InRange(c) && forall x :: 0.0 <= x <= 1.0 ==> 0.0 <= linear(x) <= 1.0
    ensures 0.0 <= Luminance(c, linear) <= 1.0
  {
    assert 0.0 <= linear(c.r / 255.0) <= 1.0 && 0.0 <= linear(c.g / 255.0) <= 1.0 && 0.0 <= linear(c.b / 255.0) <= 1.0;
  }
}
