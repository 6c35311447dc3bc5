/** Toast notifications (assets/js/modules/toast-manager.js). A toast is an
    element in `#toastContainer` and an entry of the shared toast queue; hiding
    one takes it out of both. The show and hide animations and the timers that
    hide a toast after its duration are not modelled: `Hide` does at once what
    the source does 300 ms after it is called. */
module ToastManager {
  import opened JsBuiltins
  import opened Dom
  import opened SharedState

  /** The options object of `show`; a field left undefined is `None`. */
  datatype ToastOptions = ToastOptions(kind: Option<string>, message: Option<string>, duration: Option<int>)

  /** The Font Awesome icon name for a toast type. */
  function IconFor(kind: string): (icon: string)
    ensures icon == "info-circle" <==> kind !in {"success", "error", "warning"}
    ensures kind == "success" ==> icon == "check-circle"
    ensures kind == "error" ==> icon == "exclamation-circle"
    ensures kind == "warning" ==> icon == "exclamation-triangle"
  {
    match kind
    case "success" => "check-circle"
    case "error" => "exclamation-circle"
    case "warning" => "exclamation-triangle"
    case _ => "info-circle"
  }

  /** The toast built from `options`, around element `e`. */
  function ToastOf(e: ElementId, options: ToastOptions): (t: Toast)
    ensures t.element == e
    ensures options.kind.None? ==> t.kind == "info" && t.icon == "info-circle"
    ensures options.kind.Some? ==> t.kind == options.kind.value && t.icon == IconFor(options.kind.value)
    ensures options.message.None? ==> t.message == ""
    ensures options.message.Some? ==> t.message == options.message.value
    ensures options.duration.None? ==> t.duration == 3000
    ensures options.duration.Some? ==> t.duration == options.duration.value
  {
    var kind := options.kind.GetOr("info");
    Toast(e, kind, IconFor(kind), options.message.GetOr(""), options.duration.GetOr(3000))
  }

  /** The elements of the queued toasts, in queue order. */
  function QueuedElements(queue: seq<Toast>): (r: seq<ElementId>)
    ensures |r| == |queue| && forall i :: 0 <= i < |queue| ==> r[i] == queue[i].element
  {
    if queue == [] then [] else [queue[0].element] + QueuedElements(queue[1..])
  }

  /** The container holds exactly the queued toasts' elements, in queue order,
      each once, and each made before `nextId`. */
  ghost predicate Mirrored(st: AppState, doc: Document)
    reads st, doc
  {
    && doc.toastLayer == QueuedElements(st.toastQueue)
    && Distinct(doc.toastLayer)
    && forall i :: 0 <= i < |doc.toastLayer| ==> doc.toastLayer[i] < doc.nextId
  }

  /** The queue less the first toast whose element is `e`. */
  function RemoveFirst(queue: seq<Toast>, e: ElementId): seq<Toast> {
    if queue == [] then []
    else if queue[0].element == e then queue[1..]
    else [queue[0]] + RemoveFirst(queue[1..], e)
  }

  /** `RemoveFirst` drops exactly one toast when one has that element, and
      nothing otherwise. */
  lemma {:induction false} RemoveFirstDropsOne(queue: seq<Toast>, e: ElementId)
    ensures e in QueuedElements(queue) ==> |RemoveFirst(queue, e)| == |queue| - 1
    ensures e !in QueuedElements(queue) ==> RemoveFirst(queue, e) == queue
  {
    if queue != [] {
      RemoveFirstDropsOne(queue[1..], e);
      assert QueuedElements(queue) == [queue[0].element] + QueuedElements(queue[1..]);
    }
  }

  /** The toast `RemoveFirst` drops is the first one with that element. */
  lemma {:induction false} RemoveFirstAt(queue: seq<Toast>, e: ElementId, k: int)
    requires 0 <= k < |queue| && queue[k].element == e
    requires forall j :: 0 <= j < k ==> queue[j].element != e
    ensures RemoveFirst(queue, e) == queue[..k] + queue[k + 1..]
  {
    if k > 0 {
      var tail := queue[1..];
      assert tail[k - 1] == queue[k];
      forall j | 0 <= j < k - 1 ensures tail[j].element != e {
        assert tail[j] == queue[j + 1];
      }
      RemoveFirstAt(tail, e, k - 1);
      assert queue[..k] == [queue[0]] + tail[..k - 1];
      assert queue[k + 1..] == tail[k..];
    }
  }

  /** With every element queued once, taking the first toast with element `e`
      out of the queue and `e` out of the container keeps the two in step. */
  lemma {:induction false} RemoveFirstMirrors(queue: seq<Toast>, e: ElementId)
    requires Distinct(QueuedElements(queue))
    ensures QueuedElements(RemoveFirst(queue, e)) == Without(QueuedElements(queue), {e})
  {
    if queue != [] {
      var layer := QueuedElements(queue);
      var tail := queue[1..];
      assert layer == [queue[0].element] + QueuedElements(tail);
      assert Distinct(QueuedElements(tail)) by {
        forall i, j | 0 <= i < j < |tail| ensures QueuedElements(tail)[i] != QueuedElements(tail)[j] {
          assert QueuedElements(tail)[i] == layer[i + 1] && QueuedElements(tail)[j] == layer[j + 1];
        }
      }
      if queue[0].element == e {
        assert e !in QueuedElements(tail) by {
          forall j | 0 <= j < |tail| ensures QueuedElements(tail)[j] != e {
            assert QueuedElements(tail)[j] == layer[j + 1] && layer[0] == e;
          }
        }
        WithoutAbsent(QueuedElements(tail), e);
      } else {
        RemoveFirstMirrors(tail, e);
      }
    }
  }

  /** `show`: the element is made whatever happens; without a container the
      toast goes nowhere, otherwise it is appended to the container and queued. */
  method Show(st: AppState, doc: Document, options: ToastOptions)
    modifies st`toastQueue, doc`toastLayer, doc`nextId
    ensures doc.nextId == old(doc.nextId) + 1
    ensures !doc.hasToastContainer ==>
              st.toastQueue == old(st.toastQueue) && doc.toastLayer == old(doc.toastLayer)
    ensures doc.hasToastContainer ==>
              && st.toastQueue == old(st.toastQueue) + [ToastOf(old(doc.nextId), options)]
              && doc.toastLayer == old(doc.toastLayer) + [old(doc.nextId)]
    ensures old(Mirrored(st, doc)) ==> Mirrored(st, doc)
  {
    var kind := options.kind.GetOr("info");
    var message := options.message.GetOr("");
    var duration := options.duration.GetOr(3000);
    var e := doc.nextId;
    doc.nextId := doc.nextId + 1;
    var icon := IconFor(kind);
    if !doc.hasToastContainer {
      return;
    }
    doc.toastLayer := doc.toastLayer + [e];
    st.toastQueue := st.toastQueue + [Toast(e, kind, icon, message, duration)];
    assert QueuedElements(st.toastQueue) == old(QueuedElements(st.toastQueue)) + [e];
  }

  /** `hide`, once its 300 ms have passed: the element leaves the container if
      it is there, and the first queued toast with that element leaves the queue. */
  method Hide(st: AppState, doc: Document, e: ElementId)
    modifies st`toastQueue, doc`toastLayer
    ensures doc.toastLayer == Without(old(doc.toastLayer), {e})
    ensures st.toastQueue == RemoveFirst(old(st.toastQueue), e)
    ensures old(Mirrored(st, doc)) ==> Mirrored(st, doc)
  {
    if e in doc.toastLayer {
      doc.toastLayer := Without(doc.toastLayer, {e});
    } else {
      WithoutAbsent(doc.toastLayer, e);
    }
    var index := FindIndex(st.toastQueue, (t: Toast) => t.element == e);
    if index != -1 {
      RemoveFirstAt(st.toastQueue, e, index);
      st.toastQueue := st.toastQueue[..index] + st.toastQueue[index + 1..];
    } else {
      RemoveFirstDropsOne(st.toastQueue, e);
    }
    if old(Mirrored(st, doc)) {
      RemoveFirstMirrors(old(st.toastQueue), e);
      WithoutDistinct(old(doc.toastLayer), {e});
      WithoutKeepsBound(old(doc.toastLayer), {e}, doc.nextId);
    }
  }

  /** The set of queued toasts' elements. */
  function QueuedSet(queue: seq<Toast>): set<ElementId> {
    set i | 0 <= i < |queue| :: queue[i].element
  }

  /** `clearAll`: every queued toast is hidden, then the queue is emptied. */
  method ClearAll(st: AppState, doc: Document)
    modifies st`toastQueue, doc`toastLayer
    ensures st.toastQueue == []
    ensures doc.toastLayer == Without(old(doc.toastLayer), QueuedSet(old(st.toastQueue)))
    ensures old(Mirrored(st, doc)) ==> doc.toastLayer == [] && Mirrored(st, doc)
  {
    var snapshot := st.toastQueue;
    ghost var layer0 := doc.toastLayer;
    var i := 0;
    WithoutNothing(layer0);
    assert QueuedSet(snapshot[..0]) == {};
    while i < |snapshot|
      invariant 0 <= i <= |snapshot|
      invariant doc.toastLayer == Without(layer0, QueuedSet(snapshot[..i]))
    {
      Hide(st, doc, snapshot[i].element);
      WithoutOneMore(layer0, QueuedSet(snapshot[..i]), snapshot[i].element);
      QueuedSetStep(snapshot, i);
      i := i + 1;
    }
    assert snapshot[..i] == snapshot;
    st.toastQueue := [];
    if old(Mirrored(st, doc)) {
      QueuedSetCovers(snapshot);
      WithoutEverything(layer0, QueuedSet(snapshot));
    }
  }

  lemma QueuedSetStep(queue: seq<Toast>, i: nat)
    requires i < |queue|
    ensures QueuedSet(queue[..i + 1]) == QueuedSet(queue[..i]) + {queue[i].element}
  {
    var longer, shorter := queue[..i + 1], queue[..i];
    assert forall j :: 0 <= j < i ==> longer[j] == shorter[j];
    assert longer[i] == queue[i];
  }

  lemma QueuedSetCovers(queue: seq<Toast>)
    ensures forall k :: 0 <= k < |QueuedElements(queue)| ==> QueuedElements(queue)[k] in QueuedSet(queue)
  {
    forall k | 0 <= k < |QueuedElements(queue)| ensures QueuedElements(queue)[k] in QueuedSet(queue) {
      assert QueuedElements(queue)[k] == queue[k].element;
    }
  }
}
