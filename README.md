# Top-k selection of the MobileNet Core ML demo, in Dafny

The MobileNet demo app classifies an image with a Core ML model and shows the
five most likely labels. The classifier returns a dictionary from label to
probability. The app's own logic is the function `top(k, prob)`. It turns the
dictionary into (label, probability) pairs, sorts them by probability, highest
first, and keeps the first `k`. It traps unless `k <= prob.count`, and it also
traps on a negative `k`, because `prefix(through: k - 1)` is then out of range.

The project has three modules:

- `Sorting` (`sorting.dfy`) models `sorted(by: { a, b in a.1 > b.1 })`. It
  defines `Descending` and an insertion sort `SortDescending`. The sort is proved
  to return a descending permutation (same multiset) of its input.
- `TopK` (`topk.dfy`) models the selector.
  - The order in which Swift visits the dictionary is unspecified, so it is an
    explicit parameter `order`. `Enumerates` requires it to list every key exactly once.
  - `Entries` models `prob.map { x in (x.key, x.value) }`.
  - `Top` models `top` itself, and `TopClamped` models the Camera demo's variant,
    which uses `prefix(min(k, prob.count))`.
  - `IsTopK` says what any correct answer is, independently of how it is computed:
    - exactly `k` pairs;
    - in non-increasing score order;
    - each pair an entry of the dictionary;
    - no label twice;
    - no entry left out scores above an entry kept.
- `TopKLemmas` (`topk_lemmas.dfy`) relates answers to each other:
  - the first pair holds the maximum score;
  - an answer exists exactly when `0 <= k <= prob.count`;
  - two answers have the same score at every position;
  - every answer allowed by `IsTopK` is returned by `Top` for some iteration order;
  - a worked five-label example.

The sort is not documented as stable, and the iteration order is unspecified.
So the Swift function may return any sequence that satisfies `IsTopK`. Two
results together show that the model returns exactly that set of answers:
`Top`'s postcondition, and the lemma `EveryTopKIsReachable`. The model's sort is
stable, but every tie order is still reachable through the `order` parameter.

`MobileNetCoreML/ViewController.swift:31-37` and the copy in
`Cat Demo/MobileNetCoreML/ViewController.swift:80-86` are the same function, and
both are modelled by `Top`. `TopK.TopClamped` models the free function `top` in
`Camera Demo/MobileNetCamera/ViewController.swift:215-219`. For any `k >= 0` it
returns a correct top-`min(k, prob.count)` answer, and when `k >= prob.count`
every key of the dictionary appears in it. It has no row in the table below,
because the table cannot cite a path that contains a space.

## Model

| member | source | states |
|---|---|---|
| Sorting.SortDescending | MobileNetCoreML/ViewController.swift:35 | the sorted sequence is in non-increasing score order and is a permutation (same multiset, same length) of the pairs it sorts |
| Sorting.Insert | MobileNetCoreML/ViewController.swift:35 | inserting a pair into a descending sequence keeps it descending and adds exactly that pair to its multiset |
| Sorting.AdjacentDescendingIffDescending | MobileNetCoreML/ViewController.swift:35 | the comparator's ordering checked on neighbours (`r[i].1 >= r[i+1].1`) is equivalent to the ordering of every pair of positions |
| Sorting.SortDescendingKeepsSorted | MobileNetCoreML/ViewController.swift:35 | a sequence already in descending order is returned unchanged by the sort |
| TopK.Entries | MobileNetCoreML/ViewController.swift:34 | mapping the dictionary to pairs yields, in iteration order, one pair per key, each a (key, value) entry of the dictionary |
| TopK.Top | MobileNetCoreML/ViewController.swift:31-37 | under `0 <= k <= prob.count`, the result is a correct top-k answer: `k` pairs (so `k == 0` gives `[]`), in non-increasing score order, each an entry of `prob`, labels pairwise distinct, and every entry left out scores no more than every entry kept |
| TopKLemmas.TopKHeadIsMaximum | MobileNetCoreML/ViewController.swift:35-36 | in any answer with `k >= 1`, the first pair is an entry whose score is at least every score in the dictionary |
| TopKLemmas.TopKExistsIffInRange | MobileNetCoreML/ViewController.swift:32-36 | a correct answer exists if and only if `0 <= k <= prob.count`, which is exactly the condition under which `top` does not trap |
| TopKLemmas.TopKScoresDetermined | MobileNetCoreML/ViewController.swift:34-36 | two correct answers for the same `k` and dictionary hold the same score at every position, so they differ only in how equal scores are ordered or chosen |
| TopKLemmas.EveryTopKIsReachable | MobileNetCoreML/ViewController.swift:34-36 | every correct answer is the result of `Top` for some iteration order of the dictionary, so the model leaves tie order as open as the source does |
| TopKLemmas.ThreeOfFiveExample | MobileNetCoreML/ViewController.swift:31-37 | for `{cat: 0.9, dog: 0.05, bird: 0.03, fox: 0.01, owl: 0.01}` and `k = 3`, whatever the iteration order, the result is `[(cat, 0.9), (dog, 0.05), (bird, 0.03)]` |

## Left out

- `predict(image:)` and `viewDidLoad` (MobileNetCoreML/ViewController.swift:9-27) are left out. They call the Core ML `MobileNet` model, which is foreign inference code. They format labels with `String(format:)` on floating-point values, and they assign UI outlets.
- `UIImage.pixelBuffer` (MobileNetCoreML/UIImage+CVPixelBuffer.swift) is left out. It is CoreGraphics and CoreVideo platform code and has no logic of its own.
- The conversion scripts `coreml.py` and `Convert/coreml.py` are left out. They are one-shot calls to coremltools with constant preprocessing parameters.
- The Camera demo's capture pipeline is not part of this model. That covers its `DispatchSemaphore` admission, its FPS and latency measurement, and its round-robin reuse of Vision requests. These depend on threads and on a clock. Only its `top` variant is modelled, as `TopClamped`.
- The Vision code path is left out. It takes `observations.prefix(through: 4)` and relies on the framework's own ordering of results.
- Top: scores are modelled as mathematical reals. Swift's `Double` admits NaN, and for NaN `>` is not a strict weak ordering, so the order the library sort then produces is not modelled.
- Top: Swift's `Int` is 64-bit. The model uses unbounded integers, which makes no difference because `k` is bounded by the dictionary's size.
- Top: the traps for `k > prob.count` and `k < 0` are modelled as a precondition. The model has no error result for them.
- Top: the dictionary's iteration order is a parameter. The library sort's unspecified treatment of ties is modelled by one fixed sort, and `EveryTopKIsReachable` shows that this loses no possible answer.
