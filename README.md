# Scope engine, scope-chain generator and property contexts

This project models three pieces of runtime logic from a repository of experiments with V8 scope types. It proves properties of each model.

- **Scope composition** (`composition.dfy`, module `ScopeComposition`). In `src/lib.rs` the `Add*` traits decide which scope type you get when you open a ContextScope, HandleScope, EscapableHandleScope or TryCatch inside a scope of a given type. In Rust this relation lives in the type system. Here it is a partial function over a `Scope` datatype. A lifetime is the nesting depth of the scope that owns it. `'b: 'a` ("b outlives a") is `b <= a`.
- **Scope-entry engine** (`engine.dfy`, module `ScopeEngine`). This covers the per-isolate `EffectiveScope` table, `Header`, the four aspects and `ScopeDataInner` (called `ScopeData` here). They are classes whose methods update the table in place.
  - A Rust panic is a returned `Status`. The state after a panic is the state at the moment the Rust code panics.
  - The calls into V8 are recorded in a ghost log `calls` on the table.
- **Chain algebra** (`chains.dfy`, module `Chains`). `src/gen.js` enumerates the same composition relation with `Chain`s: lists of `{kind, lt}` entries plus a chain lifetime.
  - `find`, `remove`, the `add_*` transitions, `try_deref`, `deref` and `serialize_nice` are functions.
  - A JavaScript exception is a `Result` failure.
  - `gather_lts` and `name_lts` mutate a `Set`, so they are methods over the class `LtSet`. Its `elements` are the set's members in insertion order.
- **Property contexts** (`props.dfy`, module `PropContext`). `src_c/ctx.cpp` keeps a thread-local stack of contexts, each holding a property map.
  - The `thread_local` pointer `current_` is the field `current` of one `Thread` object.
  - Contexts are objects with `parent` and `props` fields.
  - The property type id is the datatype `PropClass`.
  - `StringProp::get` is the `value` field of `Prop`.
  - A failed `assert` is `Failure(AssertionFailed)`.
- `outcomes.dfy` (module `Outcomes`) holds the `Option` and `Result` datatypes the other modules share.

Points where the model reads the code closely:

- `src_c/ctx.cpp:92` names a static local `default`, which is a C++ keyword, and the file never includes `<iostream>`.
  - The model gives `get` the evident meaning: it returns the value of a default-constructed `P`.
  - Printing is left out.
- `src_c/ctx.cpp:47` and `:57` write `Context:current_ = this;`. The `Context:` there is a statement label. The assignment it labels still targets the static `current_`, and the model treats it as that assignment.
- `set` (`src_c/ctx.cpp:96-103`) copies the properties of the context that is current when it is called. It does not copy the receiver's properties.
- In `main` (`src_c/ctx.cpp:126`) the result of the first `set` is discarded. That temporary is destroyed at the end of its statement, and the destruction pops it again. So the next two reads see the root's values. `PropContext.Demo` states this.
- A scope that was created but never entered has an empty `prior`. Dropping it while any other scope of the same isolate is entered panics as "shadowed" (`src/lib.rs:577-585`, and the TODO at `src/lib.rs:545`). `ScopeEngine.DropUnenteredWhileOtherEntered` states this.

## Model

| member | source | states |
|---|---|---|
| ScopeComposition.AddContextScope | src/lib.rs:106-132 | A ContextScope exists only over a handle scope, an escapable handle scope or a try/catch over one of those, and never over a ContextScope or `()`. The result wraps a non-unit scope at lifetime `a`, which the parent outlives. It keeps the parent's handle scope and escape target. Over a valid parent it is valid. Over a valid parent it exists exactly when the parent outlives `a` and is not a ContextScope: over a HandleScope (on an isolate or a context), an EscapableHandleScope, or a TryCatch over either. |
| ScopeComposition.AddHandleScope | src/lib.rs:136-166 | The result is a HandleScope or EscapableHandleScope at `a`, which the parent outlives. New locals go to `a`, and the escape target is the parent's. A new HandleScope is a `HandleScope<'a>`, that is, on a context. Over a valid parent it is valid. A root HandleScope on an isolate has no handle-scope addition. Over every other valid parent it exists exactly when the parent outlives `a`. |
| ScopeComposition.AddEscapableHandleScope | src/lib.rs:170-196 | The result is `EscapableHandleScope<'a, h>`, where `h` is the parent's current handle scope. Over a valid parent it is valid. It does not exist over `()` or over a root HandleScope on an isolate. Over a valid parent it exists exactly when the parent outlives `a`, has a handle scope, and is not an isolate HandleScope: so over a HandleScope, an EscapableHandleScope, a TryCatch over one, and a ContextScope over one of those. |
| ScopeComposition.AddTryCatch | src/lib.rs:200-214 | The result is a TryCatch at `a` that does not wrap another TryCatch. It keeps the parent's handle scope and escape target. There is none over a TryCatch, `()` or an isolate HandleScope. Over a valid parent it is valid. Over a valid parent it exists exactly when the parent outlives `a`, has a handle scope, is not a TryCatch and is not an isolate HandleScope: so over a HandleScope on a context, an EscapableHandleScope, and a ContextScope over one of those. |
| ScopeComposition.ContextScopeForwards | src/lib.rs:140-144 | `ContextScope<'b, P>` offers exactly `P`'s handle-scope, escapable and try/catch additions, guarded by `'b: 'a`. Over `()` it offers only a plain HandleScope. |
| ScopeComposition.EscapeLifetimeRules | src/lib.rs:150-184 | A HandleScope added to `EscapableHandleScope<'b,'c>` keeps escape lifetime `'c`, also under a TryCatch. An EscapableHandleScope added to `HandleScope<'b>` or `EscapableHandleScope<'b,'c>` escapes into `'b`. |
| ScopeComposition.EscapeOutlivesHandle | src/lib.rs:114-119 | In a valid scope type, the escape target outlives the scope where locals are created. |
| ScopeComposition.ReachableScopesAreValid | src/lib.rs:236-281 | Every scope type reached from `ContextScope::root` or `HandleScope::root` by any sequence of additions is valid, and is outlived by the root. Its escape target outlives its handle scope. |
| ScopeComposition.ValidStepsStayValid | src/lib.rs:91-214 | Any sequence of additions from a valid scope type yields a valid type outlived by the start, with an escape target that outlives its handle scope. |
| ScopeEngine.EffectiveScope.constructor | src/lib.rs:371-377 | A table starts with nothing entered and an empty call log. |
| ScopeEngine.Header.constructor | src/lib.rs:544-550 | A header starts with no `prior`. |
| ScopeEngine.Header.Enter | src/lib.rs:552-561 | The header becomes `last_entered`. The first enter stores the displaced value as `prior`. A later enter keeps `prior` and panics unless the displaced value equals it. Nothing else in the table changes. |
| ScopeEngine.Header.Exit | src/lib.rs:563-571 | `last_entered` becomes `prior`. It panics (unwrap) when nothing was entered, and panics (assert_eq) when the removed header is another one. |
| ScopeEngine.Header.ExitOutcome | src/lib.rs:566-569 | Exit is Ok exactly when the removed header is this one. It is the unwrap panic exactly when nothing was entered. |
| ScopeEngine.Header.HasScopeBeenEntered | src/lib.rs:577-585 | True exactly when the header is `last_entered`. False exactly when it is not and `last_entered` equals its `prior`. Otherwise it fails with the "shadowed" panic. |
| ScopeEngine.ContextAspect.constructor | src/lib.rs:607-614 | The aspect holds its context and no saved prior. |
| ScopeEngine.ContextAspect.Enter | src/lib.rs:616-622 | The context is installed in the table, and the displaced context is saved. It panics if a prior was already saved. `Context::Enter` is called only when it does not panic. |
| ScopeEngine.ContextAspect.Exit | src/lib.rs:623-629 | The saved context goes back and the saved prior is cleared. It panics when the slot is empty or holds another context. `Context::Exit` is called only on success. |
| ScopeEngine.HandleScopeAspect.constructor | src/lib.rs:636-642 | The aspect owns fresh storage for a V8 handle scope. |
| ScopeEngine.HandleScopeAspect.Enter | src/lib.rs:644-647 | Constructs the V8 handle scope in its own storage on the table's isolate. It never panics and leaves the table unchanged. |
| ScopeEngine.HandleScopeAspect.Exit | src/lib.rs:648-650 | Destructs that handle scope. It never panics and leaves the table unchanged. |
| ScopeEngine.EscapeSlotAspect.constructor | src/lib.rs:656-660 | The aspect starts with no saved prior. |
| ScopeEngine.EscapeSlotAspect.Enter | src/lib.rs:662-670 | Calls `Undefined` and then `Local::New`. It installs the fresh local as the escape slot and saves the displaced slot. It panics if a prior was already saved. |
| ScopeEngine.EscapeSlotAspect.Exit | src/lib.rs:671-678 | The saved slot goes back. It panics only when no slot was installed. It makes no V8 call. |
| ScopeEngine.TryCatchAspect.constructor | src/lib.rs:686-693 | The aspect owns fresh storage for a V8 try/catch and has no saved prior. |
| ScopeEngine.TryCatchAspect.Enter | src/lib.rs:695-704 | Constructs the try/catch, installs its storage in the table and saves the displaced one. It panics if a prior was already saved. |
| ScopeEngine.TryCatchAspect.Exit | src/lib.rs:705-711 | The saved try/catch goes back. It panics when the slot is empty or is not its own storage. It destructs the try/catch only on success. |
| ScopeEngine.Aspect.Enter | src/lib.rs:592-600 | For `()` and every aspect: the table becomes the installed table, the aspect saves what it displaced, and it panics exactly when a prior was already saved. |
| ScopeEngine.Aspect.Exit | src/lib.rs:592-600 | For `()` and every aspect: the table gets back what was saved, and the aspect is idle again. The outcome is the aspect's exit check on the old table. |
| ScopeEngine.ScopeData.ContextScope | src/lib.rs:396-405 | A fresh, unentered scope with a Context aspect alone. |
| ScopeEngine.ScopeData.HandleScope | src/lib.rs:424-429 | A fresh, unentered scope with a HandleScope aspect alone. |
| ScopeEngine.ScopeData.ContextAndHandleScope | src/lib.rs:440-449 | A fresh, unentered scope with a Context aspect first and a HandleScope aspect second. |
| ScopeEngine.ScopeData.EscapableHandleScope | src/lib.rs:460-469 | A fresh, unentered scope with an EscapeSlot aspect first and a HandleScope aspect second. |
| ScopeEngine.ScopeData.TryCatch | src/lib.rs:480-485 | A fresh, unentered scope with a TryCatch aspect alone. |
| ScopeEngine.ScopeData.Enter | src/lib.rs:510-519 | Enters the header, then aspect 1, then aspect 2. It succeeds exactly when the scope is ready: it panics when the header's `prior` differs from the displaced top (`assert_eq`), or when an aspect already holds a saved value. On success the header is on top, aspect 1's value is installed, what was displaced is saved, and the V8 calls are aspect 1's followed by aspect 2's. |
| ScopeEngine.ScopeData.Exit | src/lib.rs:521-526 | Exits the header, then aspect 2, then aspect 1. It succeeds exactly when the header is on top and aspect 1's slot holds its value; otherwise it panics. On success the table gets back `prior` and the saved slot, and the V8 calls are aspect 2's exit followed by aspect 1's. |
| ScopeEngine.ScopeData.Drop | src/lib.rs:529-535 | Exits only when the scope is on top. A scope that is not on top but not shadowed is left alone (Ok, table unchanged). A shadowed scope panics. A scope on top drops without panicking exactly when it can exit. |
| ScopeEngine.EnterThenDrop | src/lib.rs:510-535 | Entering a ready scope and dropping it both succeed. The table is restored exactly. The V8 calls are the enter calls followed by the exit calls in reverse aspect order. |
| ScopeEngine.EnterReady | src/lib.rs:510-519 | Entering a ready scope succeeds. The header is on top with the displaced top as its `prior`, aspect 1's value is installed, and the scope can then exit without panicking. |
| ScopeEngine.DropOnTop | src/lib.rs:529-535 | Dropping a scope that is on top with its value installed does not panic. It puts back `prior` and aspect 1's saved slot. |
| ScopeEngine.EnterChild | src/lib.rs:577-585 | Entering a fresh child over an entered parent succeeds. The child's `prior` is the parent, and while the child is entered, querying the parent panics as shadowed. |
| ScopeEngine.DropChild | src/lib.rs:577-585 | Dropping the entered child does not panic. It restores what it displaced, and the parent reports itself entered again. |
| ScopeEngine.NestedScopes | src/lib.rs:577-585 | While a child scope is entered, querying the parent panics as shadowed. After the child is dropped, the parent is on top again. Dropping both restores the table. |
| ScopeEngine.ExitUndoesEnter | src/lib.rs:615-711 | For each aspect, restoring after installing gives back the original table. The exit check succeeds on the table the aspect installed. |
| ScopeEngine.DropUnenteredWhileOtherEntered | src/lib.rs:544-585 | Dropping a never-entered scope while another scope of the same table is entered panics as shadowed. |
| Chains.KeepMembers | src/gen.js:17-19 | The filter keeps exactly the entries whose kind is selected. |
| Chains.KeepAppend | src/gen.js:17-19 | The filter distributes over concatenation, so it keeps the order of the remaining entries. |
| Chains.Find | src/gen.js:11-13 | Nothing exactly when no entry has the kind. Otherwise an entry of that kind, at an index after which no entry has the kind. |
| Chains.LastOfKind | src/gen.js:11-13 | When some entry has the kind, the entry `find` returns sits at an index with that kind and no later entry of the kind. |
| Chains.FindIsLast | src/gen.js:11-13 | `find` is nothing exactly when no entry has the kind. Otherwise it is an entry of that kind with no entry of the kind after it. |
| Chains.FindFront | src/gen.js:14-16 | `find_front` returns the first entry exactly when it has the kind. |
| Chains.FindFrontIsFind | src/gen.js:11-16 | With at most one entry per kind, whatever `find_front` returns is also what `find` returns. |
| Chains.Remove | src/gen.js:17-19 | `remove` keeps the chain's lifetime. |
| Chains.RemoveKeepsOthers | src/gen.js:17-19 | After `remove(k)` the entries are exactly the old ones not of kind `k`. No `k` is left. The subsequence of every other kind is unchanged and in order. |
| Chains.AddContext | src/gen.js:20-26 | Nothing exactly when there is no Handle. Otherwise the lifetime is kept, a single Context is put in front, earlier Contexts are dropped, and all other kinds are unchanged. |
| Chains.AddHandle | src/gen.js:27-37 | Refused exactly when there is a Handle and no Context. Otherwise the lifetime is `lt+1` and a single new Handle is in front. TryCatch entries are gone, and Context and Escape entries are unchanged. |
| Chains.AddEscapableHandle | src/gen.js:38-57 | Nothing exactly when Context or Handle is missing, or the Handle has no lifetime. Otherwise the chain starts with the new Handle at `lt+1` and an Escape at the last Handle's lifetime. TryCatch is gone and Context entries are unchanged. |
| Chains.AddTryCatch | src/gen.js:58-65 | Nothing exactly when Context or Handle is missing. Otherwise the lifetime is `lt+1`, a single TryCatch is in front, and all other kinds are unchanged. |
| Chains.AddAll | src/gen.js:66-71 | Four candidate transitions. From a well-formed chain, every transition that exists yields a well-formed chain: this is the step of the induction over the chains the generator visits. |
| Chains.TryDeref | src/gen.js:81-86 | Nothing exactly for the empty chain. Otherwise it strips the kind of highest priority present: TryCatch, then Escape, then Context, then Handle. |
| Chains.JsMaxBounds | src/gen.js:90 | `Math.max(floor, ...xs)` is at least the floor and every element, and is the floor or one of the elements. |
| Chains.MaxOfTruthyLts | src/gen.js:90 | The new lifetime is at least 0 and every entry lifetime, and is 0 or an entry's lifetime. |
| Chains.Deref | src/gen.js:87-92 | TypeError exactly for the empty chain. Nothing when stripping leaves no entries. Otherwise it has the stripped entries, and its lifetime is the largest entry lifetime with floor 0. |
| Chains.AddContextWellFormed | src/gen.js:20-26 | `add_context` preserves a well-formed chain. Well-formed means: only Contexts lack a lifetime, lifetimes lie in `1..lt`, at most one entry per kind, a Context needs a Handle, a TryCatch needs a Context, and an Escape needs an older-than-Handle lifetime. |
| Chains.AddHandleWellFormed | src/gen.js:27-37 | `add_handle` preserves well-formedness. |
| Chains.AddEscapableHandleWellFormed | src/gen.js:38-57 | `add_escapable_handle` preserves well-formedness. |
| Chains.AddTryCatchWellFormed | src/gen.js:58-65 | `add_try_catch` preserves well-formedness. |
| Chains.EmptyChainWellFormed | src/gen.js:138 | The starting chain `new Chain()` is well-formed. |
| Chains.RemoveFinds | src/gen.js:17-19 | After `remove(k)` no `k` is present, and every other kind's `find` and presence are unchanged. |
| Chains.StrippedShaped | src/gen.js:81-92 | The entries left by stripping a layer keep their shape under any lifetime that bounds them. |
| Chains.StrippedUnique | src/gen.js:81-92 | Stripping a layer keeps at most one entry per kind. |
| Chains.StrippedNested | src/gen.js:81-86 | Stripping the layer of highest priority keeps the layers nested. |
| Chains.DerefWellFormed | src/gen.js:87-92 | `deref` of a non-empty well-formed chain never throws, and yields a well-formed chain. |
| Chains.RemovalsOfSerializeNice | src/gen.js:99-115 | Each `find` in `serialize_nice` sees the original chain's entry of that kind. After the four removals nothing is left. |
| Chains.HandleLayerStart | src/gen.js:106-112 | The rendering below the try/catch layer is non-empty and does not start with `T`. |
| Chains.TryCatchLayerStart | src/gen.js:113-114 | Over such a rendering, the result starts with `TryCatch<` exactly when there is a TryCatch entry. |
| Chains.SerializeNice | src/gen.js:98-118 | The final assertion never fails. It throws exactly when there is an Escape without a Handle. TryCatch, when present and only then, is the outermost wrapper. |
| Chains.WellFormedSerializes | src/gen.js:98-118 | A well-formed chain always serialises. |
| Chains.Serialize | src/gen.js:119-122 | Undefined exactly for the empty chain. Otherwise it succeeds exactly when `serialize_nice` does, returns the string `serialize_nice` renders, and throws the error `serialize_nice` throws. |
| Chains.LtSet.constructor | src/gen.js:126 | A new Set is empty. |
| Chains.LtSet.Add | src/gen.js:95-96 | `Set.add` appends a value not yet present and otherwise changes nothing. The members grow by the value. |
| Chains.GatherLts | src/gen.js:94-97 | Adds the chain lifetime and every entry lifetime. Earlier members keep their insertion order. |
| Chains.LabelInjective | src/gen.js:132 | Distinct indices below the surrogate range give distinct labels. |
| Chains.Insert | src/gen.js:128 | Inserting into a strictly descending sequence keeps it strictly descending, with one more element. |
| Chains.SortDescending | src/gen.js:128 | Sorting `(a, b) => b - a` gives a strictly descending permutation of distinct lifetimes. |
| Chains.Numbered | src/gen.js:129-134 | The map has exactly the sorted lifetimes as keys. The one at index `j` is named `Label(j)`. |
| Chains.NumberedByRank | src/gen.js:128-134 | In the sorted order, a lifetime's index is the number of larger lifetimes. |
| Chains.NameLts | src/gen.js:125-135 | Names exactly the lifetimes of all chains. Each one is named by how many gathered lifetimes are larger. |
| Chains.LargestIsA | src/gen.js:128-132 | The largest lifetime is named `'a`. |
| Chains.RankOrder | src/gen.js:128 | A larger lifetime gets an earlier label index. |
| Chains.RankBound | src/gen.js:130 | Label indices are below the number of lifetimes. |
| Chains.NamesDistinct | src/gen.js:129-134 | Distinct lifetimes get distinct names (for fewer than 0xD800 - 97 lifetimes). |
| Chains.SerializeDefault | src/gen.js:119 | With the default argument, the names are `name_lts` of the chain itself and the result is `serialize` with them. |
| PropContext.As | src_c/ctx.cpp:12-15 | The cast succeeds exactly when the dynamic class is `P`, and then yields the property itself. |
| PropContext.DefaultProp | src_c/ctx.cpp:92-93 | A default-constructed `P` has class `P`. It holds "I am henk" for `Henk` and the empty string otherwise. |
| PropContext.Thread.constructor | src_c/ctx.cpp:106 | A thread starts with no current context. |
| PropContext.Context.constructor | src_c/ctx.cpp:53-58 | The current context becomes the parent, its properties are copied (none at the root), and the new context becomes current. |
| PropContext.Context.Move | src_c/ctx.cpp:45-51 | Takes the other context's properties. If the other is current, it replaces it as current, takes over its parent, and the other's parent becomes null. Otherwise the current context becomes its parent and current is unchanged. |
| PropContext.Context.Destroy | src_c/ctx.cpp:64-69 | Pops to the parent only when this context is current. Otherwise nothing changes. |
| PropContext.Context.Current | src_c/ctx.cpp:71-76 | Returns the current context. It creates an empty root, which becomes current, only when there is none. |
| PropContext.Context.TryGet | src_c/ctx.cpp:78-84 | Empty exactly when `P` is absent. The stored value when present. The assertion fails only when the stored property is not a `P`. |
| PropContext.Context.Get | src_c/ctx.cpp:86-94 | The stored value, or else a default-constructed `P`'s value. It fails only as `TryGet` does. |
| PropContext.Context.Set | src_c/ctx.cpp:96-103 | A fresh context becomes current. Its parent is the context that was current. Its properties are that context's with `P` overwritten by a new `P` holding the value. The receiver is untouched. |
| PropContext.GetIsTryGetOrDefault | src_c/ctx.cpp:78-94 | On a context whose properties are stored under their own classes, neither read aborts. `get` is `try_get` with the default as fallback. |
| PropContext.SetOverridesOnlyItsKey | src_c/ctx.cpp:96-103 | After `set<P>`, reading `P` gives the new value. Every other property reads as in the context that was current before. |
| PropContext.Demo | src_c/ctx.cpp:121-140 | From an empty thread, `main` reads "I am henk"/"" at the root and again after the discarded `set`, then "Die nu ook"/"" inside the scope of `c3`, then "I am henk"/"" after it. |

## Left out

- The V8 calls (`src/lib.rs:715-794`) are foreign code. They appear only as entries of the ghost log `calls`. A `Local::New` is a fresh `Slot` object.
- `src/binding.cc`, `src/mock.rs`, `src/locker.rs`, `src_c/lib.cpp`, `d.cpp`, `src/main.rs`, `channel.rs`, `build.rs` and the borrow-checker experiments under `src/` are not part of this model. They are FFI bindings, ABI adapters and compile-time experiments.
- The `Deref`/`DerefMut` casts, the pointer transmute at the end of `ScopeDataInner::enter` and `assert_type_layout_eq` (`src/lib.rs:299-362, 516-518`) are memory-layout tricks. `ScopeData.Enter` returns only a `Status`, not the reference to the new scope type.
- Headers and scopes are object identities. The model cannot express that moving a Rust value would change the address a header is known by.
- Panics are returned statuses. Unwinding, and the `Drop` that runs while a panic unwinds, are not modelled.
- ScopeEngine.ScopeData.Enter: after a panic, the contract does not state the table; the Ok case is fully stated.
- ScopeEngine.ScopeData.Exit: after a panic, the contract does not state the table, aspect states or log; the Ok case is fully stated.
- The chain `clone`, the memoised enumeration `gather_all_recursive` and the top-level driver loops of `src/gen.js` (lines 8-10, 72-79, 137-167) are not modelled. Neither is `console.log`. `AddAll` and `EmptyChainWellFormed` state the step and the base of the induction over the chains it visits. The induction itself is not stated.
- Chains.Label: `String.fromCharCode` makes UTF-16 code units. A lone surrogate code unit (0xD800-0xDFFF) cannot be a Dafny `char`, so it is written as U+FFFD.
- Chains.NamesDistinct: stated only for fewer than 0xD800 - 97 lifetimes, the range where every label is a distinct character.
- The JavaScript `Set` is modelled by the sequence of its members in insertion order. `name_lts` sorts them, so only their membership matters there.
- Printing to `std::cout` and the `get` hash codes in `src_c/ctx.cpp` are output only and are left out.
- The `unordered_map` a C++ move leaves behind is valid but unspecified. `Context.Move` models it as empty.
- `thread_local` is one field of a `Thread` object. No concurrency is involved.
- With copy elision, `set` returns its local context directly. The model takes the path without elision: move it into the result, then destroy the local. Both paths reach the state `Context.Set` states.
- The static `current()` returns a reference to a `const Context`. The model does not express constness in the type. It states instead that `Set` modifies only the thread.
